/**
 * Two runs of three nodes, without any crash: one that ends in the index panic of `advanceCommitIndex`
 * (core/Raft.go:724), and one after which a crash leaves a store ahead of its own commit index (core/Raft.go:190-228).
 */
module ThreeNodes {
  import opened Common
  import opened RaftTypes
  import opened RaftLog
  import opened RaftNode
  import opened RaftSystem
  import opened Selection
  import opened LongFollower
  import RaftElection
  import R = CrashRecovery
  import Replay

  ghost predicate Three(ps: seq<Id>) {
    |ps| == 3 && Distinct(ps) && "" !in ps
  }

  lemma ThreeDiffer(ps: seq<Id>)
    requires Three(ps)
    ensures ps == [ps[0], ps[1], ps[2]] && ps[0] != ps[1] && ps[1] != ps[2] && ps[0] != ps[2]
    ensures forall i :: 0 <= i < 3 ==> ps[i] in ps && ps[i] in PeerSet(ps)
  {
  }

  // ---------------------------------------------------------------------------
  // Elections
  // ---------------------------------------------------------------------------

  lemma OneMakesLeader(c: Core, n: Id, v: Id, peers: seq<Id>)
    requires |peers| == 3 && n != v && c.id == n && c.role == Candidate && c.votes == map[n := true]
    ensures
      HandleRequestVoteResponse(c, Granting(v, n, c.term).payload, peers)
      == SwitchToLeader(c.(votes := map[n := true, v := true]), peers)
  {
    assert Granted(map[n := true, v := true]) == {n, v};
    assert |{n, v}| == 2;
  }

  /** `n` asks everyone, `v` answers: two of three. */
  lemma WinOne(s: System, n: Id, v: Id, role: Role, roleV: Role, term: int, termV: int, log: Log, logV: Log) returns (s': System)
    requires Reached(s) && |s.peers| == 3 && n in s.peers && v in s.peers && n != v && n in s.nodes && v in s.nodes
    requires Plain(s.nodes[n], n, role, term, log) && role != Leader && termV <= term
    requires Plain(s.nodes[v], v, roleV, termV, logV) && IsUpToDate(logV, LastIndex(log), LastTerm(log))
    ensures Reached(s') && s'.peers == s.peers && s'.nodes.Keys == s.nodes.Keys && s.net <= s'.net
    ensures Plain(s'.nodes[n], n, Leader, term + 1, log) && TracksFrom(s'.nodes[n], s.peers, LastIndex(log) + 1)
    ensures Plain(s'.nodes[v], v, Follower, term + 1, logV)
    ensures forall x :: x in s.nodes && x != n && x != v ==> s'.nodes[x] == s.nodes[x]
    ensures forall x :: x in s.peers && x != n ==> Asking(n, x, term + 1, log) in s'.net
  {
    var s1 := Elect(s, n, role, term, log);
    var s2 := GiveVote(s1, v, n, roleV, termV, term + 1, logV, log);
    OneMakesLeader(s2.nodes[n], n, v, s.peers);
    s' := CountVote(s2, n, v);
    LeaderTracks(s2.nodes[n].(votes := map[n := true, v := true]), s.peers);
  }

  /** A request of a higher term, granted or not, makes a follower of whoever hears it. */
  lemma HearRequest(s: System, v: Id, n: Id, role: Role, term: int, term': int, log: Log, asking: Log) returns (s': System)
    requires Reached(s) && v in s.nodes && Plain(s.nodes[v], v, role, term, log) && term < term'
    requires Asking(n, v, term', asking) in s.net
    ensures Reached(s') && OthersKept(s, s', v) && Plain(s'.nodes[v], v, Follower, term', log)
  {
    var pkt := Asking(n, v, term', asking);
    var (c, granted) := HandleRequestVote(s.nodes[v], pkt.payload);
    s' := Act(s, v, VoteStep(v, pkt), Effect(c, {VoteReply(c, granted, n)}));
  }

  /** The same, and the third node hears of it. */
  lemma WinAndTell(s: System, n: Id, v: Id, w: Id, role: Role, roleW: Role, term: int, termV: int, termW: int,
                   log: Log, logV: Log, logW: Log)
    returns (s': System)
    requires Reached(s) && |s.peers| == 3 && n in s.peers && v in s.peers && w in s.peers && n != v && n != w && v != w
    requires n in s.nodes && v in s.nodes && w in s.nodes && termV <= term && termW <= term
    requires Plain(s.nodes[n], n, role, term, log) && role != Leader
    requires Plain(s.nodes[v], v, Follower, termV, logV) && IsUpToDate(logV, LastIndex(log), LastTerm(log))
    requires Plain(s.nodes[w], w, roleW, termW, logW)
    ensures Reached(s') && s'.peers == s.peers && s'.nodes.Keys == s.nodes.Keys && s.net <= s'.net
    ensures Plain(s'.nodes[n], n, Leader, term + 1, log) && TracksFrom(s'.nodes[n], s.peers, LastIndex(log) + 1)
    ensures Plain(s'.nodes[v], v, Follower, term + 1, logV) && Plain(s'.nodes[w], w, Follower, term + 1, logW)
  {
    var s1 := WinOne(s, n, v, role, Follower, term, termV, log, logV);
    s' := HearRequest(s1, w, n, roleW, termW, term + 1, logW, log);
  }

  // ---------------------------------------------------------------------------
  // Messages that fail, and heartbeats
  // ---------------------------------------------------------------------------

  function Refusing(v: Id, n: Id, term: int, conflictIndex: int, last: int): Packet {
    Packet(v, n, AppendEntriesResponse(term, false, n, 0, conflictIndex, last))
  }

  /** A message of an older term is answered in the term of the node that gets it. */
  lemma RefuseOld(s: System, n: Id, v: Id, old_: int, term: int, log: Log) returns (s': System)
    requires Reached(s) && v in s.nodes && Plain(s.nodes[v], v, Follower, term, log) && old_ < term
    requires Packet(n, v, WholeLog(n, old_, [])) in s.net
    ensures Reached(s') && OthersKept(s, s', v) && s'.nodes[v] == s.nodes[v]
    ensures Refusing(v, n, term, 0, LastIndex(log)) in s'.net
  {
    var pkt, c := Packet(n, v, WholeLog(n, old_, [])), s.nodes[v];
    var a := HandleAppendEntries(c, pkt.payload);
    assert a == Appended(c, false, 0, 0);
    s' := Act(s, v, AppendStep(v, pkt), Effect(c, {AppendReply(a, n)}));
  }

  function BehindTwo(n: Id, term: int, lastTerm: int): Payload {
    AppendEntries(term, n, 2, lastTerm, [], 0)
  }

  /** A leader with two entries, all of whose followers are said to have both, sends to one that has none. */
  lemma SendBehindTwo(s: System, n: Id, dst: Id, term: int, log: Log) returns (s': System)
    requires Reached(s) && n in s.nodes && dst in s.peers && dst != n
    requires Plain(s.nodes[n], n, Leader, term, log) && |log| == 2 && At(s.nodes[n].nextIndex, dst) == 3
    ensures Reached(s') && OthersKept(s, s', n) && s'.nodes[n] == s.nodes[n]
    ensures Packet(n, dst, BehindTwo(n, term, log[1].term)) in s'.net
  {
    var c, p := s.nodes[n], BehindTwo(n, term, log[1].term);
    assert c.log[2..] == [];
    assert SendAppendEntriesTo(c, dst) == Some(p);
    s' := Act(s, n, SendStep(n, dst), Effect(c, {Packet(n, dst, p)}));
  }

  lemma RefuseShort(s: System, n: Id, v: Id, term: int, lastTerm: int) returns (s': System)
    requires Reached(s) && v in s.nodes && Plain(s.nodes[v], v, Follower, term, [])
    requires Packet(n, v, BehindTwo(n, term, lastTerm)) in s.net
    ensures Reached(s') && OthersKept(s, s', v) && Plain(s'.nodes[v], v, Follower, term, [])
    ensures Refusing(v, n, term, 1, 0) in s'.net
  {
    var pkt, c := Packet(n, v, BehindTwo(n, term, lastTerm)), s.nodes[v];
    var a := HandleAppendEntries(c, pkt.payload);
    assert a == Appended(c.(leaderHint := n), false, 0, 1);
    s' := Act(s, v, AppendStep(v, pkt), Effect(a.core, {AppendReply(a, n)}));
  }

  /** A refusal without a conflicting term moves the leader's next index for the sender one back. */
  lemma TakeRefusal(s: System, n: Id, v: Id, term: int, log: Log, conflictIndex: int, last: int) returns (s': System)
    requires Reached(s) && n in s.nodes && Plain(s.nodes[n], n, Leader, term, log)
    requires Refusing(v, n, term, conflictIndex, last) in s.net && At(s.nodes[n].nextIndex, v) > 1
    ensures Reached(s') && OthersKept(s, s', n) && Plain(s'.nodes[n], n, Leader, term, log)
    ensures
      var c, c' := s.nodes[n], s'.nodes[n];
      c'.nextIndex == c.nextIndex[v := At(c.nextIndex, v) - 1] && c'.matchIndex == c.matchIndex
  {
    var pkt, c := Refusing(v, n, term, conflictIndex, last), s.nodes[n];
    var c' := c.(nextIndex := c.nextIndex[v := At(c.nextIndex, v) - 1]);
    assert HandleAppendEntriesResponse(c, v, pkt.payload, s.peers) == Some(c');
    s' := Act(s, n, AppendReplyStep(n, pkt), Effect(c', {}));
  }

  lemma HeartbeatFromStart(s: System, n: Id, dst: Id, term: int, log: Log) returns (s': System)
    requires Reached(s) && n in s.nodes && dst != n
    requires Plain(s.nodes[n], n, Leader, term, log) && At(s.nodes[n].nextIndex, dst) == 1
    ensures Reached(s') && OthersKept(s, s', n) && s'.nodes[n] == s.nodes[n]
    ensures Packet(n, dst, WholeLog(n, term, [])) in s'.net
  {
    var c := s.nodes[n];
    s' := Act(s, n, HeartbeatStep(n, dst, 0), Effect(c, {Packet(n, dst, WholeLog(n, term, []))}));
  }

  // ---------------------------------------------------------------------------
  // What three indexes say
  // ---------------------------------------------------------------------------

  lemma ThreeIndexes(c: Core, ps: seq<Id>)
    requires Three(ps) && c.id == ps[0] && ps[1] in c.matchIndex && ps[2] in c.matchIndex
    ensures MatchIndexes(c, ps) == [LastIndex(c.log), c.matchIndex[ps[1]], c.matchIndex[ps[2]]]
  {
    ThreeDiffer(ps);
    var one, two := ps[..1], ps[..2];
    assert one[..0] == [] && two[..1] == one && ps[..2] == two;
    assert PeerIndexes(c, one) == [] + [];
    assert PeerIndexes(c, two) == PeerIndexes(c, one) + [c.matchIndex[ps[1]]];
    assert PeerIndexes(c, ps) == PeerIndexes(c, two) + [c.matchIndex[ps[2]]];
  }

  lemma CountThree(x: int, y: int, z: int, v: int)
    ensures CountBelow([x, y, z], v) == (if x < v then 1 else 0) + (if y < v then 1 else 0) + if z < v then 1 else 0
  {
    assert [x, y, z][1..] == [y, z] && [y, z][1..] == [z] && [z][1..] == [];
    assert CountBelow([y, z], v) == CountBelow([z], v) + if y < v then 1 else 0;
  }

  /** One of three indexes beyond the log: nothing happens, since the one entry is of an older term. */
  lemma OneBeyond(c: Core, ps: seq<Id>)
    requires Three(ps) && c.id == ps[0] && c.commitIndex == 0 && c.lastApplied == 0
    requires |c.log| == 1 && c.log[0].index == 1 && c.log[0].term != c.term
    requires ps[1] in c.matchIndex && ps[2] in c.matchIndex && c.matchIndex[ps[2]] == 0
    ensures AdvanceCommitIndex(c, ps) == Some(c)
  {
    ThreeIndexes(c, ps);
    CountThree(1, c.matchIndex[ps[1]], 0, 2);
    AdvancePanicsIff(c, ps);
  }

  lemma TwoBeyond(c: Core, ps: seq<Id>)
    requires Three(ps) && c.id == ps[0] && c.commitIndex == 0 && c.lastApplied == 0 && |c.log| == 1 && c.log[0].index == 1
    requires ps[1] in c.matchIndex && ps[2] in c.matchIndex && c.matchIndex[ps[1]] == c.matchIndex[ps[2]] == 2
    ensures AdvanceCommitIndex(c, ps) == None
  {
    ThreeIndexes(c, ps);
    CountThree(1, 2, 2, 2);
    AdvancePanicsIff(c, ps);
  }

  function Accepting(v: Id, n: Id, term: int, last: int): Packet {
    Packet(v, n, AppendEntriesResponse(term, true, n, 0, last, last))
  }

  // ---------------------------------------------------------------------------
  // A commit index beyond the log
  // ---------------------------------------------------------------------------

  lemma ThirdLeads(ps: seq<Id>) returns (s: System)
    requires Three(ps)
    ensures Reached(s) && s.peers == ps && s.nodes.Keys == PeerSet(ps)
    ensures Plain(s.nodes[ps[0]], ps[0], Follower, 0, []) && Plain(s.nodes[ps[1]], ps[1], Follower, 1, [])
    ensures Plain(s.nodes[ps[2]], ps[2], Leader, 1, []) && TracksFrom(s.nodes[ps[2]], ps, 1)
  {
    ThreeDiffer(ps);
    var s0 := StartState(ps);
    s := WinOne(s0, ps[2], ps[1], Follower, Follower, 0, 0, [], []);
  }

  /** The third node leads term 1 and has two entries that nobody else gets. */
  lemma TwoUnsent(ps: seq<Id>, x: Command, y: Command) returns (s: System)
    requires Three(ps)
    ensures Reached(s) && s.peers == ps && s.nodes.Keys == PeerSet(ps)
    ensures Plain(s.nodes[ps[0]], ps[0], Follower, 0, []) && Plain(s.nodes[ps[1]], ps[1], Follower, 1, [])
    ensures Plain(s.nodes[ps[2]], ps[2], Leader, 1, [Entry(1, 1, x), Entry(2, 1, y)])
  {
    ThreeDiffer(ps);
    var s1 := ThirdLeads(ps);
    var one, two := TwoEntriesLog(1, x, y);
    s := ProposeTwo(s1, ps[2], 1, [], x, y, one, two);
  }

  /** The first leads term 2, elected by the second, and the third steps down. */
  lemma LeadsSecondTerm(s: System, ps: seq<Id>, log: Log) returns (s': System)
    requires Three(ps) && Reached(s) && s.peers == ps && s.nodes.Keys == PeerSet(ps)
    requires Plain(s.nodes[ps[0]], ps[0], Candidate, 1, []) && Plain(s.nodes[ps[1]], ps[1], Follower, 1, [])
    requires Plain(s.nodes[ps[2]], ps[2], Leader, 1, log)
    ensures Reached(s') && s'.peers == ps && s'.nodes.Keys == PeerSet(ps)
    ensures Plain(s'.nodes[ps[0]], ps[0], Leader, 2, []) && TracksFrom(s'.nodes[ps[0]], ps, 1)
    ensures Plain(s'.nodes[ps[1]], ps[1], Follower, 2, []) && Plain(s'.nodes[ps[2]], ps[2], Follower, 2, log)
  {
    ThreeDiffer(ps);
    s' := WinAndTell(s, ps[0], ps[1], ps[2], Candidate, Leader, 1, 1, 1, [], [], log);
  }

  lemma SendToBoth(s: System, ps: seq<Id>) returns (s': System)
    requires Three(ps) && Reached(s) && s.peers == ps && s.nodes.Keys == PeerSet(ps)
    requires Plain(s.nodes[ps[0]], ps[0], Leader, 2, []) && TracksFrom(s.nodes[ps[0]], ps, 1)
    ensures Reached(s') && OthersKept(s, s', ps[0]) && s'.nodes[ps[0]] == s.nodes[ps[0]]
    ensures Packet(ps[0], ps[1], WholeLog(ps[0], 2, [])) in s'.net && Packet(ps[0], ps[2], WholeLog(ps[0], 2, [])) in s'.net
  {
    ThreeDiffer(ps);
    var s1 := SendAll(s, ps[0], ps[1], 2, []);
    s' := SendAll(s1, ps[0], ps[2], 2, []);
  }

  /** Two messages of it stay in the network, and it has one entry. */
  lemma OldMessagesStay(s: System, ps: seq<Id>, z: Command) returns (s': System)
    requires Three(ps) && Reached(s) && s.peers == ps && s.nodes.Keys == PeerSet(ps)
    requires Plain(s.nodes[ps[0]], ps[0], Leader, 2, []) && TracksFrom(s.nodes[ps[0]], ps, 1)
    ensures Reached(s') && OthersKept(s, s', ps[0]) && Plain(s'.nodes[ps[0]], ps[0], Leader, 2, [Entry(1, 2, z)])
    ensures Packet(ps[0], ps[1], WholeLog(ps[0], 2, [])) in s'.net && Packet(ps[0], ps[2], WholeLog(ps[0], 2, [])) in s'.net
  {
    ThreeDiffer(ps);
    var s1 := SendToBoth(s, ps);
    FirstEntry(Entry(1, 2, z));
    s' := ProposeOne(s1, ps[0], 2, [], z, [Entry(1, 2, z)]);
  }

  /** One refusal, handled twice, makes a leader with two entries send both. */
  lemma BackOffTwice(s: System, n: Id, v: Id, term: int, log: Log) returns (s': System)
    requires Reached(s) && n in s.nodes && v in s.nodes && v in s.peers && n in s.peers && v != n
    requires Plain(s.nodes[n], n, Leader, term, log) && WellIndexed(log) && |log| == 2 && At(s.nodes[n].nextIndex, v) == 3
    requires Plain(s.nodes[v], v, Follower, term, [])
    ensures Reached(s') && s'.peers == s.peers && s'.nodes.Keys == s.nodes.Keys && s.net <= s'.net
    ensures Plain(s'.nodes[n], n, Leader, term, log) && Plain(s'.nodes[v], v, Follower, term, log)
    ensures forall x :: x in s.nodes && x != n && x != v ==> s'.nodes[x] == s.nodes[x]
  {
    var s1 := SendBehindTwo(s, n, v, term, log);
    var s2 := RefuseShort(s1, n, v, term, log[1].term);
    var s3 := TakeRefusal(s2, n, v, term, log, 1, 0);
    var s4 := TakeRefusal(s3, n, v, term, log, 1, 0);
    var s5 := SendAll(s4, n, v, term, log);
    s' := TakeIn(s5, n, v, term, term, [], log);
    assert [] + log == log;
  }

  /** The third leads again, in term 3, and gets its two entries to the second. */
  lemma TwoReachTheSecond(s: System, ps: seq<Id>, log: Log, short: Log) returns (s': System)
    requires Three(ps) && Reached(s) && s.peers == ps && s.nodes.Keys == PeerSet(ps)
    requires Plain(s.nodes[ps[0]], ps[0], Leader, 2, short) && Plain(s.nodes[ps[1]], ps[1], Follower, 2, [])
    requires Plain(s.nodes[ps[2]], ps[2], Follower, 2, log) && WellIndexed(log) && |log| == 2 && log[1].term > 0
    ensures Reached(s') && s'.peers == ps && s'.nodes.Keys == PeerSet(ps) && s.net <= s'.net
    ensures Plain(s'.nodes[ps[0]], ps[0], Follower, 3, short) && Plain(s'.nodes[ps[1]], ps[1], Follower, 3, log)
    ensures Plain(s'.nodes[ps[2]], ps[2], Leader, 3, log)
  {
    ThreeDiffer(ps);
    var s1 := WinAndTell(s, ps[2], ps[1], ps[0], Follower, Leader, 2, 2, 2, log, [], short);
    s' := BackOffTwice(s1, ps[2], ps[1], 3, log);
  }

  /** The first leads term 4, its one entry being of a later term than theirs. */
  lemma LeadsAgain(s: System, ps: seq<Id>, log: Log, short: Log) returns (s': System)
    requires Three(ps) && Reached(s) && s.peers == ps && s.nodes.Keys == PeerSet(ps)
    requires Plain(s.nodes[ps[0]], ps[0], Follower, 3, short) && Plain(s.nodes[ps[1]], ps[1], Follower, 3, log)
    requires Plain(s.nodes[ps[2]], ps[2], Leader, 3, log)
    requires |short| == 1 && short[0].index == 1 && LastTerm(short) > LastTerm(log)
    ensures Reached(s') && s'.peers == ps && s'.nodes.Keys == PeerSet(ps) && s.net <= s'.net
    ensures Plain(s'.nodes[ps[0]], ps[0], Leader, 4, short) && TracksFrom(s'.nodes[ps[0]], ps, 2)
    ensures Plain(s'.nodes[ps[1]], ps[1], Follower, 4, log) && Plain(s'.nodes[ps[2]], ps[2], Follower, 4, log)
  {
    ThreeDiffer(ps);
    s' := WinAndTell(s, ps[0], ps[1], ps[2], Follower, Leader, 3, 3, 3, short, log, log);
  }

  /** An old message is refused, and the refusal moves the next index of its receiver back to the start. */
  lemma OldMessageRefused(s: System, n: Id, v: Id, old_: int, term: int, short: Log, log: Log) returns (s': System)
    requires Reached(s) && n in s.nodes && v in s.nodes && v in s.peers && v != n && old_ < term
    requires Plain(s.nodes[n], n, Leader, term, short) && At(s.nodes[n].nextIndex, v) == 2
    requires Plain(s.nodes[v], v, Follower, term, log) && Packet(n, v, WholeLog(n, old_, [])) in s.net
    ensures Reached(s') && OthersKept(s, s', n) && Plain(s'.nodes[n], n, Leader, term, short)
    ensures s'.nodes[n].nextIndex == s.nodes[n].nextIndex[v := 1] && s'.nodes[n].matchIndex == s.nodes[n].matchIndex
  {
    var s1 := RefuseOld(s, n, v, old_, term, log);
    s' := TakeRefusal(s1, n, v, term, short, 0, LastIndex(log));
  }

  lemma OldMessagesRefused(s: System, ps: seq<Id>, log: Log, short: Log) returns (s': System)
    requires Three(ps) && Reached(s) && s.peers == ps && s.nodes.Keys == PeerSet(ps)
    requires Plain(s.nodes[ps[0]], ps[0], Leader, 4, short) && TracksFrom(s.nodes[ps[0]], ps, 2)
    requires Plain(s.nodes[ps[1]], ps[1], Follower, 4, log) && Plain(s.nodes[ps[2]], ps[2], Follower, 4, log)
    requires Packet(ps[0], ps[1], WholeLog(ps[0], 2, [])) in s.net && Packet(ps[0], ps[2], WholeLog(ps[0], 2, [])) in s.net
    ensures Reached(s') && OthersKept(s, s', ps[0])
    ensures Plain(s'.nodes[ps[0]], ps[0], Leader, 4, short) && TracksFrom(s'.nodes[ps[0]], ps, 1)
  {
    ThreeDiffer(ps);
    var s1 := OldMessageRefused(s, ps[0], ps[1], 2, 4, short, log);
    s' := OldMessageRefused(s1, ps[0], ps[2], 2, 4, short, log);
    BothTracked(s.nodes[ps[0]], s'.nodes[ps[0]], ps);
  }

  lemma BothTracked(c: Core, c': Core, ps: seq<Id>)
    requires Three(ps) && c.id == c'.id == ps[0] && TracksFrom(c, ps, 2) && c'.matchIndex == c.matchIndex
    requires c'.nextIndex == c.nextIndex[ps[1] := 1][ps[2] := 1]
    ensures TracksFrom(c', ps, 1)
  {
    ThreeDiffer(ps);
    assert forall x :: x in ps && x != ps[0] ==> x == ps[1] || x == ps[2];
  }

  /** A heartbeat that asks for nothing is accepted, and answered with the last index of the longer log. */
  lemma HeartbeatAccepted(s: System, n: Id, v: Id, term: int, short: Log, log: Log) returns (s': System)
    requires Reached(s) && n in s.nodes && v in s.nodes && v != n
    requires Plain(s.nodes[n], n, Leader, term, short) && At(s.nodes[n].nextIndex, v) == 1
    requires Plain(s.nodes[v], v, Follower, term, log)
    ensures Reached(s') && OthersKept(s, s', v) && Plain(s'.nodes[v], v, Follower, term, log)
    ensures Accepting(v, n, term, LastIndex(log)) in s'.net
  {
    var s1 := HeartbeatFromStart(s, n, v, term, short);
    s' := TakeIn(s1, n, v, term, term, log, []);
    assert log + [] == log;
  }

  /** The first of the two answers. */
  lemma TakeBeyond(s: System, ps: seq<Id>, term: int, short: Log) returns (s': System)
    requires Three(ps) && Reached(s) && s.peers == ps && ps[0] in s.nodes
    requires Plain(s.nodes[ps[0]], ps[0], Leader, term, short) && TracksFrom(s.nodes[ps[0]], ps, 1)
    requires |short| == 1 && short[0].index == 1 && short[0].term != term
    requires Accepting(ps[1], ps[0], term, 2) in s.net
    ensures Reached(s') && OthersKept(s, s', ps[0]) && Plain(s'.nodes[ps[0]], ps[0], Leader, term, short)
    ensures s'.nodes[ps[0]].matchIndex == s.nodes[ps[0]].matchIndex[ps[1] := 2]
  {
    ThreeDiffer(ps);
    var pkt, c := Accepting(ps[1], ps[0], term, 2), s.nodes[ps[0]];
    var c' := c.(matchIndex := c.matchIndex[ps[1] := 2], nextIndex := c.nextIndex[ps[1] := 3]);
    OneBeyond(c', ps);
    assert HandleAppendEntriesResponse(c, ps[1], pkt.payload, ps) == Some(c');
    s' := Act(s, ps[0], AppendReplyStep(ps[0], pkt), Effect(c', {}));
  }

  lemma SecondPanics(c: Core, ps: seq<Id>, short: Log)
    requires Three(ps) && Plain(c, ps[0], Leader, 4, short) && |short| == 1 && short[0].index == 1
    requires ps[1] in c.matchIndex && c.matchIndex[ps[1]] == 2
    ensures HandleAppendEntriesResponse(c, ps[2], Accepting(ps[2], ps[0], 4, 2).payload, ps) == None
  {
    ThreeDiffer(ps);
    TwoBeyond(c.(matchIndex := c.matchIndex[ps[2] := 2], nextIndex := c.nextIndex[ps[2] := 3]), ps);
  }

  /** The first three terms. */
  lemma ThreeTerms(ps: seq<Id>, x: Command, y: Command, z: Command) returns (s: System)
    requires Three(ps)
    ensures Reached(s) && s.peers == ps && s.nodes.Keys == PeerSet(ps)
    ensures
      var log := [Entry(1, 1, x), Entry(2, 1, y)];
      && Plain(s.nodes[ps[0]], ps[0], Follower, 3, [Entry(1, 2, z)]) && Plain(s.nodes[ps[1]], ps[1], Follower, 3, log)
      && Plain(s.nodes[ps[2]], ps[2], Leader, 3, log)
    ensures Packet(ps[0], ps[1], WholeLog(ps[0], 2, [])) in s.net && Packet(ps[0], ps[2], WholeLog(ps[0], 2, [])) in s.net
  {
    ThreeDiffer(ps);
    var log := [Entry(1, 1, x), Entry(2, 1, y)];
    var s1 := TwoUnsent(ps, x, y);
    var s2 := Elect(s1, ps[0], Follower, 0, []);
    var s3 := LeadsSecondTerm(s2, ps, log);
    var s4 := OldMessagesStay(s3, ps, z);
    s := TwoReachTheSecond(s4, ps, log, [Entry(1, 2, z)]);
  }

  /** The fourth, up to the two answers. */
  lemma TwoAnswers(s: System, ps: seq<Id>, log: Log, short: Log) returns (s': System)
    requires Three(ps) && Reached(s) && s.peers == ps && s.nodes.Keys == PeerSet(ps)
    requires Plain(s.nodes[ps[0]], ps[0], Leader, 4, short) && TracksFrom(s.nodes[ps[0]], ps, 1)
    requires Plain(s.nodes[ps[1]], ps[1], Follower, 4, log) && Plain(s.nodes[ps[2]], ps[2], Follower, 4, log)
    ensures Reached(s') && s'.peers == ps && s'.nodes.Keys == PeerSet(ps) && s'.nodes[ps[0]] == s.nodes[ps[0]]
    ensures Accepting(ps[1], ps[0], 4, LastIndex(log)) in s'.net && Accepting(ps[2], ps[0], 4, LastIndex(log)) in s'.net
  {
    ThreeDiffer(ps);
    var s1 := HeartbeatAccepted(s, ps[0], ps[1], 4, short, log);
    s' := HeartbeatAccepted(s1, ps[0], ps[2], 4, short, log);
  }

  /**
   * For any three nodes and commands: a leader with one entry is about to handle two success replies that report an
   * index of 2 each, and the second makes it index its log beyond the end. Nobody crashed, and no message was made up:
   * two were late, and one came twice.
   */
  lemma AdvancePanicHappens(ps: seq<Id>, x: Command, y: Command, z: Command) returns (s: System, pkt: Packet)
    requires Three(ps)
    ensures Reached(s) && pkt in s.net && pkt.dst == ps[0] && ps[0] in s.nodes
    ensures
      var c := s.nodes[ps[0]];
      && c.role == Leader && c.learners == {} && |c.log| == 1 && Shaped(c) && pkt.payload.AppendEntriesResponse?
      && HandleAppendEntriesResponse(c, pkt.src, pkt.payload, s.peers) == None
  {
    ThreeDiffer(ps);
    var log, short := [Entry(1, 1, x), Entry(2, 1, y)], [Entry(1, 2, z)];
    var s1 := ThreeTerms(ps, x, y, z);
    var s2 := LeadsAgain(s1, ps, log, short);
    var s3 := OldMessagesRefused(s2, ps, log, short);
    var s4 := TwoAnswers(s3, ps, log, short);
    s := TakeBeyond(s4, ps, 4, short);
    pkt := Accepting(ps[2], ps[0], 4, 2);
    SecondPanics(s.nodes[ps[0]], ps, short);
  }

  // ---------------------------------------------------------------------------
  // A store ahead of its commit index
  // ---------------------------------------------------------------------------

  /** Two of three have the entry, which is of the leader's term: it is committed. */
  lemma TwoHaveIt(c: Core, ps: seq<Id>)
    requires Three(ps) && c.id == ps[0] && c.commitIndex == 0 && c.lastApplied == 0
    requires |c.log| == 1 && c.log[0].index == 1 && c.log[0].term == c.term
    requires ps[1] in c.matchIndex && ps[2] in c.matchIndex && c.matchIndex[ps[1]] == 1 && c.matchIndex[ps[2]] == 0
    ensures AdvanceCommitIndex(c, ps) == Some(Apply(c.(commitIndex := 1)))
  {
    var indexes := MatchIndexes(c, ps);
    ThreeIndexes(c, ps);
    CountThree(1, 1, 0, 1);
    CountThree(1, 1, 0, 2);
    KthUnique(indexes, |indexes| / 2, Kth(indexes, |indexes| / 2), 1);
  }

  /** The first node leads term 1 with one entry, which the second has and says so. */
  lemma OneReplicated(ps: seq<Id>, cmd: Command) returns (s: System)
    requires Three(ps)
    ensures Reached(s) && s.peers == ps && s.nodes.Keys == PeerSet(ps)
    ensures Plain(s.nodes[ps[0]], ps[0], Leader, 1, [Entry(1, 1, cmd)]) && TracksFrom(s.nodes[ps[0]], ps, 1)
    ensures Plain(s.nodes[ps[1]], ps[1], Follower, 1, [Entry(1, 1, cmd)])
    ensures Accepting(ps[1], ps[0], 1, 1) in s.net
  {
    ThreeDiffer(ps);
    var log := [Entry(1, 1, cmd)];
    var s0 := StartState(ps);
    var s1 := WinOne(s0, ps[0], ps[1], Follower, Follower, 0, 0, [], []);
    FirstEntry(Entry(1, 1, cmd));
    var s2 := ProposeOne(s1, ps[0], 1, [], cmd, log);
    s := Replicate(s2, ps[0], ps[1], 1, 1, log, [], log);
  }

  function Committing(n: Id, term: int): Payload {
    AppendEntries(term, n, 1, term, [], 1)
  }

  /** The leader commits it, and its next heartbeat tells the second. */
  lemma CommitAndTell(s: System, ps: seq<Id>, cmd: Command) returns (s': System)
    requires Three(ps) && Reached(s) && s.peers == ps && s.nodes.Keys == PeerSet(ps)
    requires Plain(s.nodes[ps[0]], ps[0], Leader, 1, [Entry(1, 1, cmd)]) && TracksFrom(s.nodes[ps[0]], ps, 1)
    requires Writes(cmd) && Accepting(ps[1], ps[0], 1, 1) in s.net
    ensures Reached(s') && OthersKept(s, s', ps[0]) && s'.nodes[ps[0]].role == Leader && s'.nodes[ps[0]].commitIndex == 1
    ensures Packet(ps[0], ps[1], Committing(ps[0], 1)) in s'.net
  {
    ThreeDiffer(ps);
    var pkt, c := Accepting(ps[1], ps[0], 1, 1), s.nodes[ps[0]];
    var c' := LeaderCommits(c, ps, cmd);
    var s1 := Act(s, ps[0], AppendReplyStep(ps[0], pkt), Effect(c', {}));
    s' := TellCommit(s1, ps[0], ps[1]);
  }

  lemma TellCommit(s: System, n: Id, v: Id) returns (s': System)
    requires Reached(s) && n in s.nodes && v != n
    requires
      var c := s.nodes[n];
      && c.id == n && c.role == Leader && c.term == 1 && c.commitIndex == 1
      && |c.log| == 1 && c.log[0].term == 1 && At(c.nextIndex, v) == 2
    ensures Reached(s') && OthersKept(s, s', n) && s'.nodes[n] == s.nodes[n] && Packet(n, v, Committing(n, 1)) in s'.net
  {
    s' := Act(s, n, HeartbeatStep(n, v, 1), Effect(s.nodes[n], {Packet(n, v, Committing(n, 1))}));
  }

  lemma LeaderCommits(c: Core, ps: seq<Id>, cmd: Command) returns (c': Core)
    requires Three(ps) && Plain(c, ps[0], Leader, 1, [Entry(1, 1, cmd)]) && TracksFrom(c, ps, 1) && Writes(cmd)
    ensures HandleAppendEntriesResponse(c, ps[1], Accepting(ps[1], ps[0], 1, 1).payload, ps) == Some(c')
    ensures c'.id == ps[0] && c'.role == Leader && c'.term == 1 && c'.log == c.log && c'.commitIndex == 1
    ensures At(c'.nextIndex, ps[1]) == 2
  {
    ThreeDiffer(ps);
    var c1 := c.(matchIndex := c.matchIndex[ps[1] := 1], nextIndex := c.nextIndex[ps[1] := 2]);
    TwoHaveIt(c1, ps);
    c' := Apply(c1.(commitIndex := 1));
    assert c' == ApplyNext(c1.(commitIndex := 1));
  }

  /** The message makes the second node follow the commit, from a disk that is exact. */
  lemma AboutToFollow(c: Core, n: Id, v: Id, cmd: Command)
    requires Plain(c, v, Follower, 1, [Entry(1, 1, cmd)])
    ensures Shaped(c) && WellFormedAppend(Committing(n, 1))
    ensures
      var c' := c.(leaderHint := n);
      && HandleAppendEntries(c, Committing(n, 1)).core == FollowCommit(c', 1)
      && R.CoreReady(c', 1) && c'.disk.state == Replay.Applied(c'.log, 0) && c'.disk.LoadMeta().commitIndex == 0
  {
    var c' := c.(leaderHint := n);
    assert StoredCovers(LogPair(c'.log, c'.disk.logs), 1);
    assert c'.log[..0] == [];
    assert R.Ahead(c'.log, 0, 1, c'.disk.state);
  }

  /**
   * For any three nodes: a put is committed, the second node follows, and crashes between the state write and the metadata
   * behind it. The restart knows of no commit, but the value is in the store.
   */
  lemma RestartAheadOfItsCommit(ps: seq<Id>, key: string, value: string) returns (s: System, pkt: Packet)
    requires Three(ps)
    ensures Reached(s) && pkt in s.net && pkt.dst == ps[1] && ps[0] in s.nodes && ps[1] in s.nodes
    ensures s.nodes[ps[0]].role == Leader && s.nodes[ps[0]].commitIndex == 1
    ensures
      var c := s.nodes[ps[1]];
      var c' := c.(leaderHint := ps[0]);
      && Persisted(c) && Shaped(c) && WellFormedAppend(pkt.payload)
      && HandleAppendEntries(c, pkt.payload).core == FollowCommit(c', 1)
      && var r := Restart(ps[1], R.DiskAfter(c', 1, 1));
      && r.Some? && r.value.commitIndex == 0
      && r.value.disk.state == map[key := value] != map[] == Replay.Applied(r.value.log, 0)
  {
    ThreeDiffer(ps);
    var cmd := Command(PutOp, key, value, 0);
    s := FollowerTold(ps, cmd);
    pkt := Packet(ps[0], ps[1], Committing(ps[0], 1));
    AboutToFollow(s.nodes[ps[1]], ps[0], ps[1], cmd);
    ReachedPersists(s, ps[1]);
    CrashBehindPut(s.nodes[ps[1]].(leaderHint := ps[0]), key, value);
  }

  lemma FollowerTold(ps: seq<Id>, cmd: Command) returns (s: System)
    requires Three(ps) && Writes(cmd)
    ensures Reached(s) && ps[0] in s.nodes && ps[1] in s.nodes
    ensures s.nodes[ps[0]].role == Leader && s.nodes[ps[0]].commitIndex == 1
    ensures Plain(s.nodes[ps[1]], ps[1], Follower, 1, [Entry(1, 1, cmd)]) && Packet(ps[0], ps[1], Committing(ps[0], 1)) in s.net
  {
    ThreeDiffer(ps);
    var s1 := OneReplicated(ps, cmd);
    s := CommitAndTell(s1, ps, cmd);
  }

  lemma ReachedPersists(s: System, n: Id)
    requires Reached(s) && n in s.nodes
    ensures Persisted(s.nodes[n])
  {
    var run, steps :| Run(run, steps) && CrashFree(steps) && run[|steps|] == s;
    RaftElection.ElectionRun(run, steps, |steps|);
    assert RaftElection.NodeInv(s, s.nodes[n]);
  }

  lemma CrashBehindPut(c: Core, key: string, value: string)
    requires c.log == [Entry(1, 1, Command(PutOp, key, value, 0))] && c.lastApplied == 0 && R.CoreReady(c, 1)
    requires c.disk.state == map[] && c.disk.LoadMeta().commitIndex == 0
    ensures
      var r := Restart(c.id, R.DiskAfter(c, 1, 1));
      && r.Some? && r.value.commitIndex == 0
      && r.value.disk.state == map[key := value] != map[] == Replay.Applied(r.value.log, 0)
  {
    var d := R.DiskAfter(c, 1, 1);
    assert c.log[..0] == [];
    R.FirstDisks(c, 1, 1);
    R.CoreCrashIsLeft(c, 1, d);
    R.CoreCrashIsMendable(c, 1, d);
    R.OldMetaRestart(c, d, c.id);
    assert key in map[key := value];
  }
}
