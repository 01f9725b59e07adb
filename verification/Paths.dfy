/** Lexical path handling: Go's filepath.Join and filepath.Clean, and the driver's validatePath. */
module Paths {
  import opened GoStrings

  predicate Rooted(p: string) {
    p != "" && p[0] == '/'
  }

  /** Processes path elements left to right: "" and "." vanish, ".." removes the element before it,
      is dropped at the root, and stays at the front of a relative path. */
  function Walk(rooted: bool, done: seq<string>, parts: seq<string>): seq<string>
    decreases |parts|
  {
    if parts == [] then done
    else if parts[0] == "" || parts[0] == "." then Walk(rooted, done, parts[1..])
    else if parts[0] != ".." then Walk(rooted, done + [parts[0]], parts[1..])
    else if done != [] && done[|done| - 1] != ".." then Walk(rooted, done[..|done| - 1], parts[1..])
    else if rooted then Walk(rooted, done, parts[1..])
    else Walk(rooted, done + [".."], parts[1..])
  }

  /** The elements of the cleaned path. */
  function Segs(p: string): seq<string> {
    Walk(Rooted(p), [], Split(p, {'/'}))
  }

  function Render(rooted: bool, segs: seq<string>): string {
    var body := (if rooted then "/" else "") + Join(segs, '/');
    if body == "" then "." else body
  }

  function Clean(p: string): string {
    Render(Rooted(p), Segs(p))
  }

  /** filepath.Join of two elements: empty elements are ignored, the rest is cleaned. */
  function JoinPath(a: string, b: string): string {
    if a == "" && b == "" then ""
    else if a == "" then Clean(b)
    else if b == "" then Clean(a)
    else Clean(a + "/" + b)
  }

  /** The elements of a string without the ones that cleaning drops. */
  function Plain(parts: seq<string>): seq<string> {
    if parts == [] then []
    else (if parts[0] == "" || parts[0] == "." then [] else [parts[0]]) + Plain(parts[1..])
  }

  function Elements(p: string): seq<string> {
    Plain(Split(p, {'/'}))
  }

  // ---------------------------------------------------------------- cleaning

  lemma {:induction false} WalkAppend(rooted: bool, done: seq<string>, a: seq<string>, b: seq<string>)
    ensures Walk(rooted, done, a + b) == Walk(rooted, Walk(rooted, done, a), b)
    decreases |a|
  {
    if a == [] {
      assert a + b == b;
    } else {
      assert (a + b)[1..] == a[1..] + b;
      if a[0] == "" || a[0] == "." {
        WalkAppend(rooted, done, a[1..], b);
      } else if a[0] != ".." {
        WalkAppend(rooted, done + [a[0]], a[1..], b);
      } else if done != [] && done[|done| - 1] != ".." {
        WalkAppend(rooted, done[..|done| - 1], a[1..], b);
      } else if rooted {
        WalkAppend(rooted, done, a[1..], b);
      } else {
        WalkAppend(rooted, done + [".."], a[1..], b);
      }
    }
  }

  lemma {:induction false} WalkPlain(rooted: bool, done: seq<string>, parts: seq<string>)
    requires ".." !in parts
    ensures Walk(rooted, done, parts) == done + Plain(parts)
    decreases |parts|
  {
    if parts != [] {
      if parts[0] == "" || parts[0] == "." {
        WalkPlain(rooted, done, parts[1..]);
      } else {
        WalkPlain(rooted, done + [parts[0]], parts[1..]);
        assert done + [parts[0]] + Plain(parts[1..]) == done + Plain(parts);
      }
    }
  }

  /** Elements of a cleaned path: real names, with ".." only at the front of a relative one. */
  predicate Normal(rooted: bool, segs: seq<string>) {
    && (forall i :: 0 <= i < |segs| ==> segs[i] != "" && segs[i] != "." && Free(segs[i], {'/'}))
    && (forall i :: 0 <= i < |segs| && segs[i] == ".." ==> !rooted && forall j :: 0 <= j < i ==> segs[j] == "..")
  }

  lemma {:induction false} WalkIsNormal(rooted: bool, done: seq<string>, parts: seq<string>)
    requires Normal(rooted, done) && forall i :: 0 <= i < |parts| ==> Free(parts[i], {'/'})
    ensures Normal(rooted, Walk(rooted, done, parts))
    decreases |parts|
  {
    if parts != [] {
      if parts[0] == "" || parts[0] == "." {
        WalkIsNormal(rooted, done, parts[1..]);
      } else if parts[0] != ".." {
        WalkIsNormal(rooted, done + [parts[0]], parts[1..]);
      } else if done != [] && done[|done| - 1] != ".." {
        WalkIsNormal(rooted, done[..|done| - 1], parts[1..]);
      } else if rooted {
        WalkIsNormal(rooted, done, parts[1..]);
      } else {
        assert forall i :: 0 <= i < |done| ==> done[i] == "..";
        WalkIsNormal(rooted, done + [".."], parts[1..]);
      }
    }
  }

  lemma {:induction false} WalkFixed(rooted: bool, done: seq<string>, rest: seq<string>)
    requires Normal(rooted, done + rest)
    ensures Walk(rooted, done, rest) == done + rest
    decreases |rest|
  {
    if rest != [] {
      var all := done + rest;
      assert all[|done|] == rest[0];
      assert (done + [rest[0]]) + rest[1..] == all;
      WalkFixed(rooted, done + [rest[0]], rest[1..]);
      if rest[0] == ".." && done != [] {
        assert all[|done| - 1] == "..";
      }
    }
  }

  lemma SegsNormal(p: string)
    ensures Normal(Rooted(p), Segs(p))
  {
    SplitPartsFree(p, {'/'});
    WalkIsNormal(Rooted(p), [], Split(p, {'/'}));
  }

  lemma SegsOfEmptyRender(rooted: bool)
    ensures Segs(Render(rooted, [])) == [] && Rooted(Render(rooted, [])) == rooted && Render(rooted, []) != ""
  {
    if rooted {
      assert Render(true, []) == "" + "/" + "";
      SplitAppend("", '/', "", {'/'});
      assert Split("/", {'/'}) == ["", ""];
      assert ["", ""][1..] == [""] && [""][1..] == [];
      assert Walk(true, [], ["", ""]) == Walk(true, [], [""]) == Walk(true, [], []);
    } else {
      SplitFree(".", {'/'});
      assert ["."][1..] == [];
    }
  }

  /** Rendering normal elements and reading them back gives the same elements. */
  lemma SegsOfRender(rooted: bool, segs: seq<string>)
    requires Normal(rooted, segs)
    ensures Segs(Render(rooted, segs)) == segs && Rooted(Render(rooted, segs)) == rooted
    ensures Render(rooted, segs) != ""
  {
    if segs == [] {
      SegsOfEmptyRender(rooted);
    } else {
      var p, body := Render(rooted, segs), Join(segs, '/');
      assert [] + segs == segs;
      WalkFixed(rooted, [], segs);
      SplitJoin(segs, '/');
      assert body[0] == segs[0][0];
      if rooted {
        SplitAppend("", '/', body, {'/'});
        assert p == "" + "/" + body;
        assert Split(p, {'/'}) == [""] + segs;
        assert ([""] + segs)[1..] == segs;
      } else {
        assert p == body && Free(segs[0], {'/'});
      }
    }
  }

  lemma {:induction false} JoinEndsLikeLast(segs: seq<string>, sep: char)
    requires segs != [] && segs[|segs| - 1] != ""
    ensures Join(segs, sep) != "" && Join(segs, sep)[|Join(segs, sep)| - 1] == segs[|segs| - 1][|segs[|segs| - 1]| - 1]
  {
    if |segs| > 1 {
      JoinEndsLikeLast(segs[1..], sep);
    }
  }

  /** Only the root ends in a slash. */
  lemma CleanEnd(p: string)
    ensures Clean(p) != "" && (Clean(p) == "/" || Clean(p)[|Clean(p)| - 1] != '/')
  {
    SegsNormal(p);
    var segs := Segs(p);
    if segs != [] {
      var last := segs[|segs| - 1];
      assert last != "" && Free(last, {'/'});
      JoinEndsLikeLast(segs, '/');
    }
  }

  lemma SegsOfClean(p: string)
    ensures Segs(Clean(p)) == Segs(p) && Rooted(Clean(p)) == Rooted(p) && Clean(p) != ""
  {
    SegsNormal(p);
    SegsOfRender(Rooted(p), Segs(p));
  }

  /** Joining a path without ".." below a non-empty base only appends its elements. */
  lemma JoinAppends(base: string, p: string)
    requires base != "" && ".." !in Split(p, {'/'})
    ensures JoinPath(base, p) == Render(Rooted(base), Segs(base) + Elements(p))
    ensures Segs(JoinPath(base, p)) == Segs(base) + Elements(p)
    ensures Rooted(JoinPath(base, p)) == Rooted(base) && JoinPath(base, p) != ""
  {
    if p == "" {
      SegsOfClean(base);
      assert Elements(p) == [] + Plain([""][1..]);
      assert Segs(base) + Elements(p) == Segs(base);
    } else {
      var q := base + "/" + p;
      SplitAppend(base, '/', p, {'/'});
      WalkAppend(Rooted(base), [], Split(base, {'/'}), Split(p, {'/'}));
      WalkPlain(Rooted(base), Segs(base), Split(p, {'/'}));
      SegsOfClean(q);
    }
  }

  // ---------------------------------------------------------------- staying below a directory

  /** Read from left to right, the elements at some point leave a directory that lies `depth` levels up. */
  predicate Climbs(parts: seq<string>, depth: nat)
    decreases |parts|
  {
    if parts == [] then false
    else if parts[0] == "" || parts[0] == "." then Climbs(parts[1..], depth)
    else if parts[0] != ".." then Climbs(parts[1..], depth + 1)
    else depth == 0 || Climbs(parts[1..], depth - 1)
  }

  lemma {:induction false} PlainNeverClimbs(parts: seq<string>, depth: nat)
    requires ".." !in parts
    ensures !Climbs(parts, depth)
    decreases |parts|
  {
    if parts != [] {
      PlainNeverClimbs(parts[1..], if parts[0] == "" || parts[0] == "." then depth else depth + 1);
    }
  }

  lemma {:induction false} WalkStaysBelow(base: seq<string>, done: seq<string>, parts: seq<string>)
    requires base <= done && ".." !in done && !Climbs(parts, |done| - |base|)
    ensures base <= Walk(true, done, parts)
    decreases |parts|
  {
    if parts != [] {
      if parts[0] == "" || parts[0] == "." {
        WalkStaysBelow(base, done, parts[1..]);
      } else if parts[0] != ".." {
        WalkStaysBelow(base, done + [parts[0]], parts[1..]);
      } else {
        WalkStaysBelow(base, done[..|done| - 1], parts[1..]);
      }
    }
  }

  lemma {:induction false} WalkBringsNothingNew(done: seq<string>, parts: seq<string>, x: string)
    requires x !in done && x !in parts && x != ".."
    ensures x !in Walk(true, done, parts)
    decreases |parts|
  {
    if parts != [] {
      if parts[0] == "" || parts[0] == "." {
        WalkBringsNothingNew(done, parts[1..], x);
      } else if parts[0] != ".." {
        WalkBringsNothingNew(done + [parts[0]], parts[1..], x);
      } else if done != [] && done[|done| - 1] != ".." {
        WalkBringsNothingNew(done[..|done| - 1], parts[1..], x);
      } else {
        WalkBringsNothingNew(done, parts[1..], x);
      }
    }
  }

  lemma {:induction false} WalkLeaves(x: string, done: seq<string>, parts: seq<string>)
    requires x != ".." && ".." !in done && x !in parts && x !in done && Climbs(parts, |done|)
    ensures x !in Walk(true, [x] + done, parts)
    decreases |parts|
  {
    var all := [x] + done;
    if parts[0] == "" || parts[0] == "." {
      WalkLeaves(x, done, parts[1..]);
    } else if parts[0] != ".." {
      assert all + [parts[0]] == [x] + (done + [parts[0]]);
      WalkLeaves(x, done + [parts[0]], parts[1..]);
    } else if done == [] {
      assert all[..|all| - 1] == [];
      WalkBringsNothingNew([], parts[1..], x);
    } else {
      assert all[|all| - 1] == done[|done| - 1] && all[..|all| - 1] == [x] + done[..|done| - 1];
      WalkLeaves(x, done[..|done| - 1], parts[1..]);
    }
  }

  /** The elements of any path joined to a base. */
  lemma JoinWalks(base: string, p: string)
    requires base != ""
    ensures Segs(JoinPath(base, p)) == Walk(Rooted(base), Segs(base), Split(p, {'/'}))
    ensures Rooted(JoinPath(base, p)) == Rooted(base) && JoinPath(base, p) != ""
  {
    SegsOfClean(base);
    if p == "" {
      assert [""][1..] == [];
      assert Walk(Rooted(base), Segs(base), [""]) == Walk(Rooted(base), Segs(base), []);
    } else {
      SplitAppend(base, '/', p, {'/'});
      WalkAppend(Rooted(base), [], Split(base, {'/'}), Split(p, {'/'}));
      SegsOfClean(base + "/" + p);
    }
  }

  lemma {:induction false} PieceIsShorter(s: string, seps: set<char>, x: string)
    requires x in Split(s, seps)
    ensures |x| <= |s|
  {
    if s != "" {
      var rest := Split(s[1..], seps);
      if x in rest {
        PieceIsShorter(s[1..], seps, x);
      } else {
        PieceIsShorter(s[1..], seps, rest[0]);
      }
    }
  }

  lemma PrefixCancels(m: seq<string>, a: seq<string>, b: seq<string>)
    ensures m + a <= m + b <==> a <= b
  {
    assert (m + a)[|m|..] == a && (m + b)[|m|..] == b;
    if a <= b {
      assert forall i :: 0 <= i < |m + a| ==> (m + a)[i] == (m + b)[i];
    }
    if m + a <= m + b {
      assert forall i :: 0 <= i < |a| ==> a[i] == (m + a)[|m| + i] == (m + b)[|m| + i] == b[i];
    }
  }

  lemma {:induction false} PlainAppend(a: seq<string>, b: seq<string>)
    ensures Plain(a + b) == Plain(a) + Plain(b)
  {
    if a == [] {
      assert a + b == b;
    } else {
      var head := if a[0] == "" || a[0] == "." then [] else [a[0]];
      calc {
        Plain(a + b);
        { assert (a + b)[1..] == a[1..] + b; }
        head + Plain(a[1..] + b);
        { PlainAppend(a[1..], b); }
        head + (Plain(a[1..]) + Plain(b));
        (head + Plain(a[1..])) + Plain(b);
        Plain(a) + Plain(b);
      }
    }
  }

  lemma {:induction false} PlainOfNonEmpty(parts: seq<string>)
    ensures Plain(NonEmpty(parts)) == Plain(parts)
  {
    if parts != [] {
      PlainOfNonEmpty(parts[1..]);
      var rest := NonEmpty(parts[1..]);
      if parts[0] == "" {
        assert [] + rest == rest;
      } else {
        assert ([parts[0]] + rest)[1..] == rest;
      }
    }
  }

  /** Slashes at the ends of a path do not change its elements. */
  lemma ElementsOfTrim(p: string)
    ensures Elements(Trim(p, '/')) == Elements(p)
  {
    FieldsTrim(p, '/', {'/'});
    PlainOfNonEmpty(Split(p, {'/'}));
    PlainOfNonEmpty(Split(Trim(p, '/'), {'/'}));
  }

  // ---------------------------------------------------------------- validatePath

  const PathSeparators := {'/', '\\'}

  /** No element between slashes or backslashes is "..". */
  predicate ValidPath(p: string) {
    ".." !in Fields(p, PathSeparators)
  }

  /** A path is checked piece by piece, between slashes and between backslashes. */
  lemma ValidPieces(a: string, b: string)
    ensures ValidPath(a + "/" + b) <==> ValidPath(a) && ValidPath(b)
    ensures ValidPath(a + "\\" + b) <==> ValidPath(a) && ValidPath(b)
  {
    FieldsAppend(a, '/', b, PathSeparators);
    FieldsAppend(a, '\\', b, PathSeparators);
  }

  /** A piece without slashes and backslashes is refused exactly when it is "..". */
  lemma ValidPiece(s: string)
    requires '/' !in s && '\\' !in s
    ensures ValidPath(s) <==> s != ".."
  {
    SplitFree(s, PathSeparators);
    NonEmptyIn([s], "..");
  }

  lemma {:induction false} DotDotInJoin(parts: seq<string>)
    requires ".." in parts
    ensures ".." in Split(Join(parts, '/'), PathSeparators)
  {
    if parts[0] == ".." {
      SplitFree("..", PathSeparators);
    }
    if |parts| > 1 {
      SplitAppend(parts[0], '/', Join(parts[1..], '/'), PathSeparators);
      if parts[0] != ".." {
        DotDotInJoin(parts[1..]);
      }
    }
  }

  lemma ValidHasNoDotDot(p: string)
    requires ValidPath(p)
    ensures ".." !in Split(p, {'/'})
  {
    JoinSplit(p, '/');
    if ".." in Split(p, {'/'}) {
      DotDotInJoin(Split(p, {'/'}));
      NonEmptyIn(Split(p, PathSeparators), "..");
    }
  }

  lemma TrimKeepsValid(p: string)
    ensures ValidPath(Trim(p, '/')) <==> ValidPath(p)
  {
    FieldsTrim(p, '/', PathSeparators);
  }

  /** The node's check of the joined path accepts exactly the pairs whose parts the controller accepts. */
  lemma JoinedPathValid(source: string, subDir: string)
    ensures ValidPath(TrimRight(source, '/') + "/" + subDir) <==> ValidPath(source) && ValidPath(subDir)
  {
    FieldsTrimRight(source, '/', PathSeparators);
    FieldsAppend(TrimRight(source, '/'), '/', subDir, PathSeparators);
  }
}
