/** The edge-list parser `SplitToNodeAndEdges` of core/Tools.go: node names separated by `->`, `<-` and `-`. */
module EdgeList {
  import opened Common

  datatype Parsed = Rejected | Accepted(nodes: seq<string>, edges: seq<int>)

  predicate IsBlank(c: char) {
    c == '\t' || c == ' ' || c == '\n'
  }

  function TrimLeft(s: string): string {
    if s != [] && IsBlank(s[0]) then TrimLeft(s[1..]) else s
  }

  function TrimRight(s: string): string {
    if s != [] && IsBlank(s[|s| - 1]) then TrimRight(s[..|s| - 1]) else s
  }

  function Trim(s: string): string {
    TrimRight(TrimLeft(s))
  }

  /** An arrow starts at `i`, and at least one character follows it. */
  predicate ArrowAt(ft: string, i: nat)
    requires i < |ft|
  {
    i < |ft| - 2 && ((ft[i] == '<' && ft[i + 1] == '-') || (ft[i] == '-' && ft[i + 1] == '>'))
  }

  /** The scan from position `i`, with the current piece starting at `j`. */
  function Scan(ft: string, i: nat, j: nat, nodes: seq<string>, edges: seq<int>): Parsed
    requires j <= |ft| && i <= |ft|
    decreases |ft| - i
  {
    if i == |ft| then
      if j >= |ft| then Rejected
      else
        var s := Trim(ft[j..]);
        if s == [] then Rejected
        else if |nodes| + 1 != |edges| + 1 then Rejected
        else Accepted(nodes + [s], edges)
    else if ArrowAt(ft, i) then
      if j >= i then Rejected
      else
        var s := Trim(ft[j..i]);
        if s == [] then Rejected
        else Scan(ft, i + 2, i + 2, nodes + [s], edges + [if ft[i] == '<' then -1 else 1])
    else if ft[i] == '-' then
      if j >= i then Rejected
      else
        var s := Trim(ft[j..i]);
        if s == [] then Rejected
        else Scan(ft, i + 1, i + 1, nodes + [s], edges + [0])
    else Scan(ft, i + 1, j, nodes, edges)
  }

  function Parse(ft: string): Parsed {
    Scan(ft, 0, 0, [], [])
  }

  /** The final length check of the source is kept, and shown never to fire. */
  method SplitToNodeAndEdges(ft: string) returns (nodes: seq<string>, edges: seq<int>, ok: bool)
    ensures Parse(ft) == if ok then Accepted(nodes, edges) else Rejected
    ensures ok ==> |nodes| == |edges| + 1
  {
    var n := |ft|;
    nodes, edges := [], [];
    var i, j := 0, 0;
    while i < n
      invariant 0 <= j <= i <= n
      invariant |nodes| == |edges|
      invariant Scan(ft, i, j, nodes, edges) == Parse(ft)
      decreases n - i
    {
      var c := ft[i];
      if (c == '<' && i < n - 2 && ft[i + 1] == '-') || (c == '-' && i < n - 2 && ft[i + 1] == '>') {
        if j >= i {
          return [], [], false;
        }
        var s := Trim(ft[j..i]);
        if |s| == 0 {
          return [], [], false;
        }
        i := i + 2;
        j := i;
        nodes := nodes + [s];
        if c == '<' {
          edges := edges + [-1];
        } else {
          edges := edges + [1];
        }
      } else if c == '-' {
        if j >= i {
          return [], [], false;
        }
        var s := Trim(ft[j..i]);
        if |s| == 0 {
          return [], [], false;
        }
        i := i + 1;
        j := i;
        nodes := nodes + [s];
        edges := edges + [0];
      } else {
        i := i + 1;
      }
    }
    if j >= n {
      return [], [], false;
    }
    assert ft[j..] == ft[j..n];
    var s := Trim(ft[j..n]);
    if |s| == 0 {
      return [], [], false;
    }
    nodes := nodes + [s];
    assert |nodes| == |edges| + 1;
    if |nodes| != |edges| + 1 {
      return [], [], false;
    }
    return nodes, edges, true;
  }

  // ---------------------------------------------------------------------------
  // What an accepted text is made of
  // ---------------------------------------------------------------------------

  predicate IsEdge(e: int) {
    e == -1 || e == 0 || e == 1
  }

  function Separator(e: int): string {
    if e < 0 then "<-" else if e > 0 then "->" else "-"
  }

  /** Every piece followed by its separator. */
  function Separated(pieces: seq<string>, edges: seq<int>): string
    requires |pieces| == |edges|
    decreases |pieces|
  {
    if pieces == [] then []
    else Separated(pieces[..|pieces| - 1], edges[..|edges| - 1]) + pieces[|pieces| - 1] + Separator(edges[|edges| - 1])
  }

  function Join(pieces: seq<string>, edges: seq<int>): string
    requires |pieces| == |edges| + 1
  {
    Separated(pieces[..|edges|], edges) + pieces[|edges|]
  }

  lemma SeparatedSnoc(pieces: seq<string>, edges: seq<int>, piece: string, e: int)
    requires |pieces| == |edges|
    ensures Separated(pieces + [piece], edges + [e]) == Separated(pieces, edges) + piece + Separator(e)
  {
    assert (pieces + [piece])[..|pieces|] == pieces && (edges + [e])[..|edges|] == edges;
  }

  ghost predicate TrimmedPieces(pieces: seq<string>, nodes: seq<string>) {
    && |pieces| == |nodes|
    && forall k :: 0 <= k < |nodes| ==> nodes[k] == Trim(pieces[k]) && nodes[k] != []
  }

  /** What the scan has taken apart so far, up to position `j`. */
  ghost predicate TakenApart(ft: string, j: nat, pieces: seq<string>, nodes: seq<string>, edges: seq<int>) {
    && j <= |ft| && |pieces| == |edges| && TrimmedPieces(pieces, nodes)
    && Separated(pieces, edges) == ft[..j]
    && forall k :: 0 <= k < |edges| ==> IsEdge(edges[k])
  }

  lemma PieceTaken(ft: string, j: nat, i: nat, e: int, pieces: seq<string>, nodes: seq<string>, edges: seq<int>)
    requires TakenApart(ft, j, pieces, nodes, edges) && IsEdge(e)
    requires j <= i && i + |Separator(e)| <= |ft| && ft[i..i + |Separator(e)|] == Separator(e)
    requires Trim(ft[j..i]) != []
    ensures TakenApart(ft, i + |Separator(e)|, pieces + [ft[j..i]], nodes + [Trim(ft[j..i])], edges + [e])
  {
    SeparatedSnoc(pieces, edges, ft[j..i], e);
    ThreeParts(ft, j, i, i + |Separator(e)|);
  }

  lemma ThreeParts(s: string, a: nat, b: nat, c: nat)
    requires a <= b <= c <= |s|
    ensures s[..c] == s[..a] + s[a..b] + s[b..c]
  {
  }

  ghost predicate MadeOf(ft: string, r: Parsed, all: seq<string>) {
    && r.Accepted? && TrimmedPieces(all, r.nodes) && |all| == |r.edges| + 1
    && Join(all, r.edges) == ft
    && forall k :: 0 <= k < |r.edges| ==> IsEdge(r.edges[k])
  }

  lemma LastPieceTaken(ft: string, j: nat, pieces: seq<string>, nodes: seq<string>, edges: seq<int>)
    requires TakenApart(ft, j, pieces, nodes, edges) && Trim(ft[j..]) != []
    ensures MadeOf(ft, Accepted(nodes + [Trim(ft[j..])], edges), pieces + [ft[j..]])
  {
    var all := pieces + [ft[j..]];
    assert all[..|edges|] == pieces;
    assert ft == ft[..j] + ft[j..];
  }

  /** What an arrow or a dash at `i` adds to what has been taken apart. */
  lemma ArrowTaken(ft: string, j: nat, i: nat, pieces: seq<string>, nodes: seq<string>, edges: seq<int>)
    requires TakenApart(ft, j, pieces, nodes, edges) && j <= i < |ft| && ArrowAt(ft, i) && Trim(ft[j..i]) != []
    ensures TakenApart(ft, i + 2, pieces + [ft[j..i]], nodes + [Trim(ft[j..i])], edges + [if ft[i] == '<' then -1 else 1])
  {
    var e := if ft[i] == '<' then -1 else 1;
    assert ft[i..i + 2] == Separator(e);
    PieceTaken(ft, j, i, e, pieces, nodes, edges);
  }

  lemma DashTaken(ft: string, j: nat, i: nat, pieces: seq<string>, nodes: seq<string>, edges: seq<int>)
    requires TakenApart(ft, j, pieces, nodes, edges) && j <= i < |ft| && ft[i] == '-' && Trim(ft[j..i]) != []
    ensures TakenApart(ft, i + 1, pieces + [ft[j..i]], nodes + [Trim(ft[j..i])], edges + [0])
  {
    assert ft[i..i + 1] == Separator(0);
    PieceTaken(ft, j, i, 0, pieces, nodes, edges);
  }

  lemma {:induction false} ScanSound(ft: string, i: nat, j: nat, pieces: seq<string>, nodes: seq<string>, edges: seq<int>)
    returns (all: seq<string>)
    requires j <= i <= |ft| && TakenApart(ft, j, pieces, nodes, edges)
    requires Scan(ft, i, j, nodes, edges).Accepted?
    ensures MadeOf(ft, Scan(ft, i, j, nodes, edges), all)
    decreases |ft| - i
  {
    if i == |ft| {
      LastPieceTaken(ft, j, pieces, nodes, edges);
      all := pieces + [ft[j..]];
    } else if ArrowAt(ft, i) {
      ArrowTaken(ft, j, i, pieces, nodes, edges);
      all := ScanSound(ft, i + 2, i + 2, pieces + [ft[j..i]], nodes + [Trim(ft[j..i])],
                       edges + [if ft[i] == '<' then -1 else 1]);
    } else if ft[i] == '-' {
      DashTaken(ft, j, i, pieces, nodes, edges);
      all := ScanSound(ft, i + 1, i + 1, pieces + [ft[j..i]], nodes + [Trim(ft[j..i])], edges + [0]);
    } else {
      all := ScanSound(ft, i + 1, j, pieces, nodes, edges);
    }
  }

  /** An accepted text is its pieces joined again by their separators, and the nodes are those pieces, trimmed and non-empty. */
  lemma AcceptedTextIsJoin(ft: string)
    ensures
      match Parse(ft)
      case Rejected => true
      case Accepted(nodes, edges) =>
        && |nodes| == |edges| + 1
        && (forall k :: 0 <= k < |edges| ==> IsEdge(edges[k]))
        && exists pieces :: TrimmedPieces(pieces, nodes) && Join(pieces, edges) == ft
  {
    if Parse(ft).Accepted? {
      assert Separated([], []) == ft[..0];
      var pieces := ScanSound(ft, 0, 0, [], [], []);
    }
  }

  lemma {:induction false} TrimRightClean(s: string)
    ensures TrimRight(s) <= s
    ensures TrimRight(s) != [] ==> !IsBlank(TrimRight(s)[|TrimRight(s)| - 1])
    decreases |s|
  {
    if s != [] && IsBlank(s[|s| - 1]) {
      TrimRightClean(s[..|s| - 1]);
    }
  }

  lemma {:induction false} TrimLeftClean(s: string)
    ensures TrimLeft(s) != [] ==> !IsBlank(TrimLeft(s)[0])
    decreases |s|
  {
    if s != [] && IsBlank(s[0]) {
      TrimLeftClean(s[1..]);
    }
  }

  /** Trimming leaves no blank at either end, and leaves alone what has none there. */
  lemma TrimClean(s: string)
    ensures Trim(s) != [] ==> !IsBlank(Trim(s)[0]) && !IsBlank(Trim(s)[|Trim(s)| - 1])
    ensures s != [] && !IsBlank(s[0]) && !IsBlank(s[|s| - 1]) ==> Trim(s) == s
  {
    TrimLeftClean(s);
    TrimRightClean(TrimLeft(s));
  }

  /** Trimming takes away blanks at both ends, and only those. */
  lemma TrimDropsBlanks(s: string) returns (i: nat, j: nat)
    ensures i <= j <= |s| && Trim(s) == s[i..j]
    ensures forall k :: 0 <= k < |s| && (k < i || k >= j) ==> s[k] == '\t' || s[k] == ' ' || s[k] == '\n'
  {
    i := LeftBlanks(s);
    var n := RightBlanks(s[i..]);
    j := i + n;
    assert s[i..][..n] == s[i..j];
    forall k | j <= k < |s| ensures IsBlank(s[k]) {
      assert s[k] == s[i..][k - i];
    }
  }

  lemma {:induction false} LeftBlanks(s: string) returns (i: nat)
    ensures i <= |s| && TrimLeft(s) == s[i..] && forall k :: 0 <= k < i ==> IsBlank(s[k])
    decreases |s|
  {
    i := 0;
    if s != [] && IsBlank(s[0]) {
      i := LeftBlanks(s[1..]);
      i := i + 1;
    }
  }

  lemma {:induction false} RightBlanks(s: string) returns (n: nat)
    ensures n <= |s| && TrimRight(s) == s[..n] && forall k :: n <= k < |s| ==> IsBlank(s[k])
    decreases |s|
  {
    n := |s|;
    if s != [] && IsBlank(s[|s| - 1]) {
      n := RightBlanks(s[..|s| - 1]);
      assert s[..|s| - 1][..n] == s[..n];
    }
  }

  // ---------------------------------------------------------------------------
  // Names joined by separators
  // ---------------------------------------------------------------------------

  /** Text in which no separator begins or ends; blanks do not matter. */
  predicate Plain(name: string) {
    && (forall i :: 0 <= i < |name| ==> name[i] != '-')
    && (name != [] ==> name[0] != '>' && name[|name| - 1] != '<')
  }

  function Trimmed(names: seq<string>): (r: seq<string>)
    ensures |r| == |names| && forall k :: 0 <= k < |names| ==> r[k] == Trim(names[k])
  {
    seq(|names|, k requires 0 <= k < |names| => Trim(names[k]))
  }

  /** The scan walks over characters that start no separator. */
  lemma {:induction false} ScanSkips(ft: string, i: nat, stop: nat, j: nat, nodes: seq<string>, edges: seq<int>)
    requires j <= |ft| && i <= stop <= |ft|
    requires forall k :: i <= k < stop ==> ft[k] != '-' && !ArrowAt(ft, k)
    ensures Scan(ft, i, j, nodes, edges) == Scan(ft, stop, j, nodes, edges)
    decreases stop - i
  {
    if i < stop {
      ScanSkips(ft, i + 1, stop, j, nodes, edges);
    }
  }

  lemma PlainPieceScanned(ft: string, j: nat, name: string, nodes: seq<string>, found: seq<int>)
    requires Plain(name) && j <= |ft| && name <= ft[j..]
    ensures
      var i := j + |name|;
      i <= |ft| && ft[j..i] == name && Scan(ft, j, j, nodes, found) == Scan(ft, i, j, nodes, found)
  {
    var i := j + |name|;
    assert ft[j..i] == name;
    forall k | j <= k < i ensures ft[k] != '-' && !ArrowAt(ft, k) {
      assert ft[k] == name[k - j];
      assert k + 1 < i ==> ft[k + 1] == name[k + 1 - j];
    }
    ScanSkips(ft, j, i, j, nodes, found);
  }

  lemma FirstMoves<T>(done: seq<T>, ahead: seq<T>)
    requires ahead != []
    ensures done + ahead == (done + [ahead[0]]) + ahead[1..]
  {
  }

  /** Plain names and separators; behind the last separator there is at least one character. */
  ghost predicate AllPlain(names: seq<string>, edges: seq<int>) {
    && |names| == |edges| + 1
    && (forall k :: 0 <= k < |names| ==> Plain(names[k]))
    && (forall k :: 0 <= k < |edges| ==> IsEdge(edges[k]))
    && names[|edges|] != []
  }

  ghost predicate NoneBlank(names: seq<string>) {
    forall k :: 0 <= k < |names| ==> Trim(names[k]) != []
  }

  lemma {:induction false} ScanNames(ft: string, j: nat, names: seq<string>, edges: seq<int>, nodes: seq<string>, found: seq<int>)
    requires AllPlain(names, edges) && |nodes| == |found|
    requires j <= |ft| && ft[j..] == JoinFront(names, edges)
    ensures
      Scan(ft, j, j, nodes, found)
      == if NoneBlank(names) then Accepted(nodes + Trimmed(names), found + edges) else Rejected
    decreases |edges|
  {
    if edges == [] {
      ScanLast(ft, j, names, nodes, found);
    } else {
      ScanFirst(ft, j, names, edges, nodes, found);
      NoneBlankRest(names);
      if Trim(names[0]) != [] {
        ScanNames(ft, j + |names[0]| + |Separator(edges[0])|, names[1..], edges[1..],
                  nodes + [Trim(names[0])], found + [edges[0]]);
        assert Trimmed(names)[1..] == Trimmed(names[1..]);
        FirstMoves(nodes, Trimmed(names));
        FirstMoves(found, edges);
      }
    }
  }

  lemma NoneBlankRest(names: seq<string>)
    requires names != []
    ensures NoneBlank(names) <==> Trim(names[0]) != [] && NoneBlank(names[1..])
  {
    assert forall k :: 0 <= k < |names[1..]| ==> names[1..][k] == names[k + 1];
    assert forall k :: 0 < k < |names| ==> names[k] == names[1..][k - 1];
  }

  lemma ScanLast(ft: string, j: nat, names: seq<string>, nodes: seq<string>, found: seq<int>)
    requires AllPlain(names, []) && |nodes| == |found|
    requires j <= |ft| && ft[j..] == JoinFront(names, [])
    ensures
      Scan(ft, j, j, nodes, found)
      == if NoneBlank(names) then Accepted(nodes + Trimmed(names), found + []) else Rejected
  {
    var name := names[0];
    PlainPieceScanned(ft, j, name, nodes, found);
    assert ft[j..] == name && j + |name| == |ft|;
    assert nodes + [Trim(name)] == nodes + Trimmed(names) && found + [] == found;
  }

  /** One name and the separator behind it; a blank name makes the scan give up. */
  lemma ScanFirst(ft: string, j: nat, names: seq<string>, edges: seq<int>, nodes: seq<string>, found: seq<int>)
    requires AllPlain(names, edges) && |nodes| == |found| && edges != []
    requires j <= |ft| && ft[j..] == JoinFront(names, edges)
    ensures AllPlain(names[1..], edges[1..])
    ensures
      var next := j + |names[0]| + |Separator(edges[0])|;
      && next <= |ft| && ft[next..] == JoinFront(names[1..], edges[1..])
      && Scan(ft, j, j, nodes, found)
         == if Trim(names[0]) == [] then Rejected
            else Scan(ft, next, next, nodes + [Trim(names[0])], found + [edges[0]])
  {
    var name, e, rest := names[0], edges[0], JoinFront(names[1..], edges[1..]);
    PlainPieceScanned(ft, j, name, nodes, found);
    assert ft[j..] == name + Separator(e) + rest;
    RestStarts(names[1..], edges[1..]);
    SeparatorSeen(ft, j, name, e, rest);
  }

  lemma RestStarts(names: seq<string>, edges: seq<int>)
    requires AllPlain(names, edges)
    ensures JoinFront(names, edges) != [] && JoinFront(names, edges)[0] != '>'
  {
    if names[0] != [] {
      assert JoinFront(names, edges)[0] == names[0][0];
    } else {
      var sep, rest := Separator(edges[0]), JoinFront(names[1..], edges[1..]);
      EmptyInFront(sep, rest);
      assert JoinFront(names, edges) == [] + sep + rest;
    }
  }

  lemma EmptyInFront(sep: string, rest: string)
    requires sep != []
    ensures [] + sep + rest != [] && ([] + sep + rest)[0] == sep[0]
  {
  }

  /** A separator behind a name is recognised for what it is. */
  lemma SeparatorSeen(ft: string, j: nat, name: string, e: int, rest: string)
    requires j <= |ft| && IsEdge(e) && rest != [] && rest[0] != '>'
    requires ft[j..] == name + Separator(e) + rest
    ensures
      var i := j + |name|;
      && i + |Separator(e)| < |ft|
      && ft[i + |Separator(e)|..] == rest
      && (e != 0 ==> ArrowAt(ft, i) && (ft[i] == '<' <==> e == -1))
      && (e == 0 ==> !ArrowAt(ft, i) && ft[i] == '-')
  {
    var i := j + |name|;
    var t := ft[j..];
    assert forall k :: 0 <= k < |t| ==> t[k] == ft[j + k];
    assert t[|name|..] == Separator(e) + rest;
    assert t[|name|] == Separator(e)[0];
    assert t[|name| + |Separator(e)|] == rest[0];
    if e != 0 {
      assert t[|name| + 1] == Separator(e)[1];
    }
    assert ft[i + |Separator(e)|..] == t[|name| + |Separator(e)|..] == rest;
  }

  /** `Join`, unfolded from the front. */
  function JoinFront(names: seq<string>, edges: seq<int>): (s: string)
    requires |names| == |edges| + 1
    ensures names[0] <= s
    decreases |edges|
  {
    if edges == [] then names[0] else names[0] + Separator(edges[0]) + JoinFront(names[1..], edges[1..])
  }

  lemma Regroup(a: string, b: string, c: string, d: string, e: string)
    ensures ((a + b + c) + d) + e == a + b + ((c + d) + e)
  {
  }

  lemma SeparatedInit(pieces: seq<string>, edges: seq<int>)
    requires |pieces| == |edges| > 1
    ensures Separated(pieces[1..], edges[1..])
         == Separated(pieces[..|edges| - 1][1..], edges[..|edges| - 1][1..]) + pieces[|edges| - 1] + Separator(edges[|edges| - 1])
  {
    var n, ps, es := |edges| - 1, pieces[1..], edges[1..];
    assert pieces[..n][1..] == ps[..n - 1] && edges[..n][1..] == es[..n - 1];
    assert ps[n - 1] == pieces[n] && es[n - 1] == edges[n];
  }

  lemma {:induction false} SeparatedCons(pieces: seq<string>, edges: seq<int>)
    requires |pieces| == |edges| > 0
    ensures Separated(pieces, edges) == pieces[0] + Separator(edges[0]) + Separated(pieces[1..], edges[1..])
    decreases |edges|
  {
    var n := |edges| - 1;
    if n > 0 {
      SeparatedCons(pieces[..n], edges[..n]);
      SeparatedInit(pieces, edges);
      Regroup(pieces[0], Separator(edges[0]), Separated(pieces[..n][1..], edges[..n][1..]), pieces[n], Separator(edges[n]));
    } else {
      assert pieces[..0] == [] && edges[..0] == [] && pieces[1..] == [] && edges[1..] == [];
    }
  }

  lemma {:induction false} JoinIsJoinFront(names: seq<string>, edges: seq<int>)
    requires |names| == |edges| + 1
    ensures Join(names, edges) == JoinFront(names, edges)
    decreases |edges|
  {
    if edges != [] {
      SeparatedCons(names[..|edges|], edges);
      assert names[..|edges|][1..] == names[1..][..|edges| - 1];
      JoinIsJoinFront(names[1..], edges[1..]);
    } else {
      assert names[..0] == [];
    }
  }

  /**
   * Names joined by any separators, with blanks around them or not, parse back to exactly those names and separators if
   * none of them is blank, and are rejected otherwise.
   */
  lemma NamesParseBackIff(names: seq<string>, edges: seq<int>)
    requires |names| == |edges| + 1 && names[|edges|] != []
    requires forall k :: 0 <= k < |names| ==> Plain(names[k])
    requires forall k :: 0 <= k < |edges| ==> IsEdge(edges[k])
    ensures
      Parse(Join(names, edges))
      == if forall k :: 0 <= k < |names| ==> Trim(names[k]) != [] then Accepted(Trimmed(names), edges) else Rejected
  {
    var ft := Join(names, edges);
    JoinIsJoinFront(names, edges);
    assert ft[0..] == ft;
    ScanNames(ft, 0, names, edges, [], []);
    assert [] + Trimmed(names) == Trimmed(names) && [] + edges == edges;
  }

  lemma JoinTwo(a: string, b: string, e: int)
    ensures Join([a, b], [e]) == a + Separator(e) + b
  {
    var names, edges := [a, b], [e];
    JoinIsJoinFront(names, edges);
    assert names[1..] == [b] && edges[1..] == [];
  }

  /** The three separators, and which way the arrows point. */
  lemma SeparatorsMean(a: string, b: string)
    requires Plain(a) && Plain(b) && Trim(a) != [] && Trim(b) != [] && b != []
    ensures Parse(a + "->" + b) == Accepted([Trim(a), Trim(b)], [1])
    ensures Parse(a + "<-" + b) == Accepted([Trim(a), Trim(b)], [-1])
    ensures Parse(a + "-" + b) == Accepted([Trim(a), Trim(b)], [0])
  {
    assert Trimmed([a, b]) == [Trim(a), Trim(b)];
    forall e | IsEdge(e) ensures Parse(a + Separator(e) + b) == Accepted([Trim(a), Trim(b)], [e]) {
      JoinTwo(a, b, e);
      NamesParseBackIff([a, b], [e]);
    }
    assert Separator(1) == "->" && Separator(-1) == "<-" && Separator(0) == "-";
  }
}
