/** The parenthesised notation the AST printers emit (`parenthesize` in
    src/jlox/visitors/ast-printer.ts and src/pages/jlox/visitors/ast-printer.ts)
    as a tree, with a reader that parses the notation back. `ReadRender`
    shows that the printed form loses nothing: whenever heads and atoms
    avoid spaces and parentheses, reading a rendered tree gives the tree. */
module Trees {
  import opened Basics

  /** An atom is printed as is; a node prints as `(head kid1 kid2 ...)`. */
  datatype Tree = Atom(text: string) | Node(head: string, kids: seq<Tree>)

  /** `parenthesize(name, ...parts)`: an opening parenthesis and the name,
      then a space before each part, then a closing parenthesis. */
  function Parenthesize(name: string, parts: seq<string>): (s: string)
    ensures |s| >= |name| + 2 && s[0] == '(' && s[|s| - 1] == ')'
    ensures s[1..|name| + 1] == name
  {
    "(" + name + Spaced(parts) + ")"
  }

  /** Each part preceded by one space. */
  function Spaced(parts: seq<string>): (s: string)
    ensures |parts| == 0 <==> s == ""
    ensures |parts| > 0 ==> s[0] == ' '
  {
    if |parts| == 0 then "" else " " + parts[0] + Spaced(parts[1..])
  }

  function Render(t: Tree): string
    decreases t, 1
  {
    match t
    case Atom(x) => x
    case Node(h, kids) => Parenthesize(h, RenderAll(kids))
  }

  function RenderAll(ts: seq<Tree>): (r: seq<string>)
    ensures |r| == |ts| && forall i :: 0 <= i < |ts| ==> r[i] == Render(ts[i])
    decreases ts, 0
  {
    if |ts| == 0 then [] else [Render(ts[0])] + RenderAll(ts[1..])
  }

  /** `parenthesize` with one, two and three parts, spelled out. */
  lemma ParenthesizeOne(name: string, a: string)
    ensures Parenthesize(name, [a]) == "(" + name + " " + a + ")"
  {
    assert Spaced([a]) == " " + a + Spaced([]);
  }

  lemma ParenthesizeTwo(name: string, a: string, b: string)
    ensures Parenthesize(name, [a, b]) == "(" + name + " " + a + " " + b + ")"
  {
    assert [a, b][1..] == [b];
    assert Spaced([b]) == " " + b + Spaced([]);
  }

  lemma ParenthesizeThree(name: string, a: string, b: string, c: string)
    ensures Parenthesize(name, [a, b, c]) == "(" + name + " " + a + " " + b + " " + c + ")"
  {
    assert [a, b, c][1..] == [b, c];
    assert [b, c][1..] == [c];
    assert Spaced([c]) == " " + c;
    assert Spaced([b, c]) == " " + b + (" " + c);
    assert Spaced([a, b, c]) == " " + a + (" " + b + (" " + c));
  }

  // ---------------------------------------------------------------------
  // Reading the notation back

  predicate AtomChar(c: char) {
    c != ' ' && c != '(' && c != ')'
  }

  predicate IsAtom(s: string) {
    forall i :: 0 <= i < |s| ==> AtomChar(s[i])
  }

  /** Heads and atoms contain no spaces or parentheses. */
  predicate Wellformed(t: Tree)
    decreases t
  {
    match t
    case Atom(x) => IsAtom(x)
    case Node(h, kids) => IsAtom(h) && forall k :: 0 <= k < |kids| ==> Wellformed(kids[k])
  }

  /** The length of the longest prefix of atom characters. */
  function AtomLen(s: string): (n: nat)
    ensures n <= |s| && IsAtom(s[..n])
    ensures n < |s| ==> !AtomChar(s[n])
  {
    if |s| == 0 || !AtomChar(s[0]) then 0
    else
      var n := AtomLen(s[1..]);
      assert s[..n + 1] == [s[0]] + s[1..][..n];
      n + 1
  }

  datatype Reading = Reading(tree: Tree, rest: string)

  datatype Readings = Readings(trees: seq<Tree>, rest: string)

  /** One tree at the front of `s`: a node when `s` opens a parenthesis,
      otherwise the (possibly empty) atom that starts it. */
  function ReadItem(s: string): (r: Option<Reading>)
    ensures r.Some? ==> |r.value.rest| <= |s|
    decreases |s|, 1
  {
    if |s| > 0 && s[0] == '(' then
      var n := AtomLen(s[1..]);
      match ReadKids(s[n + 1..])
      case None => None
      case Some(Readings(kids, rest)) =>
        if |rest| > 0 && rest[0] == ')' then Some(Reading(Node(s[1..n + 1], kids), rest[1..]))
        else None
    else
      var n := AtomLen(s);
      Some(Reading(Atom(s[..n]), s[n..]))
  }

  /** The trees that follow, each after one space. */
  function ReadKids(s: string): (r: Option<Readings>)
    ensures r.Some? ==> |r.value.rest| <= |s|
    decreases |s|, 0
  {
    if |s| > 0 && s[0] == ' ' then
      match ReadItem(s[1..])
      case None => None
      case Some(Reading(t, rest)) =>
        match ReadKids(rest)
        case None => None
        case Some(Readings(ts, rest')) => Some(Readings([t] + ts, rest'))
    else Some(Readings([], s))
  }

  /** The whole string as one tree. */
  function Read(s: string): (r: Option<Tree>)
    ensures r.Some? ==> ReadItem(s) == Some(Reading(r.value, ""))
  {
    match ReadItem(s)
    case Some(Reading(t, "")) => Some(t)
    case _ => None
  }

  lemma {:induction false} AtomLenOf(x: string, rest: string)
    requires IsAtom(x) && (|rest| == 0 || !AtomChar(rest[0]))
    ensures AtomLen(x + rest) == |x|
    decreases |x|
  {
    if |x| > 0 {
      assert (x + rest)[1..] == x[1..] + rest;
      AtomLenOf(x[1..], rest);
    } else {
      assert x + rest == rest;
    }
  }

  /** An atom followed by a non-atom character reads as itself. */
  lemma AtomStep(x: string, rest: string)
    requires IsAtom(x) && (|rest| == 0 || rest[0] == ' ' || rest[0] == ')')
    ensures ReadItem(x + rest) == Some(Reading(Atom(x), rest))
  {
    AtomLenOf(x, rest);
    var s := x + rest;
    assert s[..|x|] == x && s[|x|..] == rest;
    if |x| > 0 {
      assert s[0] == x[0] && AtomChar(x[0]);
    }
  }

  /** A rendered node, spelled out. */
  lemma NodeText(h: string, kids: seq<Tree>, rest: string)
    ensures Render(Node(h, kids)) + rest == "(" + (h + (Spaced(RenderAll(kids)) + (")" + rest)))
  {
  }

  /** The kids' rendering, spelled out. */
  lemma KidsText(kids: seq<Tree>, rest: string)
    requires |kids| > 0
    ensures Spaced(RenderAll(kids)) + rest == " " + (Render(kids[0]) + (Spaced(RenderAll(kids[1..])) + rest))
  {
    var r := RenderAll(kids);
    assert r[0] == Render(kids[0]) && r[1..] == RenderAll(kids[1..]);
    assert Spaced(r) == " " + r[0] + Spaced(r[1..]);
    Nest(" ", r[0], Spaced(r[1..]), rest);
  }

  lemma Nest(a: string, b: string, c: string, d: string)
    ensures a + b + c + d == a + (b + (c + d))
  {
  }

  /** One unfolding of `ReadItem` at an opening parenthesis. */
  lemma NodeUnfold(s: string, n: nat, kids: seq<Tree>, close: string)
    requires |s| > n && s[0] == '(' && AtomLen(s[1..]) == n
    requires ReadKids(s[n + 1..]) == Some(Readings(kids, close)) && |close| > 0 && close[0] == ')'
    ensures ReadItem(s) == Some(Reading(Node(s[1..n + 1], kids), close[1..]))
  {
  }

  /** One unfolding of `ReadKids` at a space. */
  lemma KidsUnfold(s: string, t: Tree, tail: string, ts: seq<Tree>, rest: string)
    requires |s| > 0 && s[0] == ' '
    requires ReadItem(s[1..]) == Some(Reading(t, tail)) && ReadKids(tail) == Some(Readings(ts, rest))
    ensures ReadKids(s) == Some(Readings([t] + ts, rest))
  {
  }

  /** `(head` followed by `body`: where the pieces sit. */
  lemma HeadSlices(s: string, h: string, body: string)
    requires s == "(" + (h + body)
    ensures |s| > |h| && s[0] == '(' && s[1..] == h + body
    ensures s[1..|h| + 1] == h && s[|h| + 1..] == body
  {
    assert s[1..] == h + body;
    assert s[1..][..|h|] == h;
  }

  /** A node reads back once its kids do. */
  lemma NodeStep(s: string, h: string, kids: seq<Tree>, body: string, rest: string)
    requires IsAtom(h) && s == "(" + (h + (body + (")" + rest)))
    requires ReadKids(body + (")" + rest)) == Some(Readings(kids, ")" + rest))
    requires |body| > 0 ==> body[0] == ' '
    ensures ReadItem(s) == Some(Reading(Node(h, kids), rest))
  {
    var tail := body + (")" + rest);
    HeadSlices(s, h, tail);
    assert |tail| > 0 && !AtomChar(tail[0]);
    AtomLenOf(h, tail);
    assert (")" + rest)[1..] == rest;
    NodeUnfold(s, |h|, kids, ")" + rest);
  }

  /** A rendered tree, followed by a space, a closing parenthesis or
      nothing, reads back as itself with that follower left over. */
  lemma {:induction false} ReadRender(t: Tree, rest: string)
    requires Wellformed(t)
    requires |rest| == 0 || rest[0] == ' ' || rest[0] == ')'
    ensures ReadItem(Render(t) + rest) == Some(Reading(t, rest))
    decreases t, 1
  {
    match t
    case Atom(x) => AtomStep(x, rest);
    case Node(h, kids) =>
      ReadRenderAll(kids, ")" + rest);
      NodeText(h, kids, rest);
      NodeStep(Render(t) + rest, h, kids, Spaced(RenderAll(kids)), rest);
  }

  lemma {:induction false} ReadRenderAll(kids: seq<Tree>, rest: string)
    requires forall k :: 0 <= k < |kids| ==> Wellformed(kids[k])
    requires |rest| > 0 && rest[0] == ')'
    ensures ReadKids(Spaced(RenderAll(kids)) + rest) == Some(Readings(kids, rest))
    decreases kids, 0
  {
    if |kids| > 0 {
      var tail := Spaced(RenderAll(kids[1..])) + rest;
      TailStart(RenderAll(kids[1..]), rest);
      ReadRender(kids[0], tail);
      ReadRenderAll(kids[1..], rest);
      KidsCons(kids, rest);
    } else {
      assert Spaced(RenderAll(kids)) + rest == rest;
    }
  }

  /** What follows a kid: a space before the next one, or the rest. */
  lemma TailStart(parts: seq<string>, rest: string)
    requires |rest| > 0 && rest[0] == ')'
    ensures |Spaced(parts) + rest| > 0
    ensures (Spaced(parts) + rest)[0] == ' ' || (Spaced(parts) + rest)[0] == ')'
  {
  }

  /** The kids' step: the first kid, then the others. */
  lemma KidsCons(kids: seq<Tree>, rest: string)
    requires |kids| > 0
    requires var tail := Spaced(RenderAll(kids[1..])) + rest;
      ReadItem(Render(kids[0]) + tail) == Some(Reading(kids[0], tail))
      && ReadKids(tail) == Some(Readings(kids[1..], rest))
    ensures ReadKids(Spaced(RenderAll(kids)) + rest) == Some(Readings(kids, rest))
  {
    var tail := Spaced(RenderAll(kids[1..])) + rest;
    KidsText(kids, rest);
    KidsStep(Spaced(RenderAll(kids)) + rest, Render(kids[0]) + tail, kids[0], tail, kids[1..], rest);
    assert [kids[0]] + kids[1..] == kids;
  }

  /** The kids' step, on abstract strings. */
  lemma KidsStep(s: string, first: string, t: Tree, tail: string, ts: seq<Tree>, rest: string)
    requires s == " " + first
    requires ReadItem(first) == Some(Reading(t, tail)) && ReadKids(tail) == Some(Readings(ts, rest))
    ensures ReadKids(s) == Some(Readings([t] + ts, rest))
  {
    assert s[1..] == first;
    KidsUnfold(s, t, tail, ts, rest);
  }

  /** Reading a rendered, wellformed tree gives the tree back. */
  lemma ReadsBack(t: Tree)
    requires Wellformed(t)
    ensures Read(Render(t)) == Some(t)
  {
    ReadRender(t, "");
    assert Render(t) + "" == Render(t);
  }

  /** So distinct wellformed trees render differently. */
  lemma RenderInjective(a: Tree, b: Tree)
    requires Wellformed(a) && Wellformed(b) && Render(a) == Render(b)
    ensures a == b
  {
    ReadsBack(a);
    ReadsBack(b);
  }
}
