/** The root of an SMB path (getRootMappingPath, pkg/mounter/refcounter_windows.go:47-64): the host and share under
    which references are kept, computed at mount from the source and at unmount from the link. */
module SmbShare {
  import opened GoStrings
  import opened Wrappers

  const Backslash := {'\\'}

  /** "\\host\share" in lower case, if the path has both. */
  function Root(path: string): Result<string> {
    var parts := Fields(path, Backslash);
    if |parts| < 2 then Err else Ok(ToLower("\\\\" + parts[0] + "\\" + parts[1]))
  }

  /** getRootMappingPath: collects non-empty pieces until it has two. */
  method GetRootMappingPath(path: string) returns (r: Result<string>)
    ensures r == Root(path)
  {
    var items := Split(path, Backslash);
    var parts: seq<string> := [];
    var i := 0;
    while i < |items|
      invariant 0 <= i <= |items| && |parts| < 2
      invariant parts == NonEmpty(items[..i])
    {
      NonEmptySnoc(items, i);
      if |items[i]| > 0 {
        parts := parts + [items[i]];
        if |parts| == 2 {
          NonEmptyPrefix(items, i + 1);
          return Ok(ToLower("\\\\" + parts[0] + "\\" + parts[1]));
        }
      }
      i := i + 1;
    }
    assert items[..|items|] == items;
    return Err;
  }

  lemma NonEmptySnoc(items: seq<string>, i: nat)
    requires i < |items|
    ensures NonEmpty(items[..i + 1]) == NonEmpty(items[..i]) + if items[i] == "" then [] else [items[i]]
  {
    NonEmptyAppend(items[..i], [items[i]]);
    assert items[..i + 1] == items[..i] + [items[i]];
    assert NonEmpty([items[i]]) == (if items[i] == "" then [] else [items[i]]) + NonEmpty([]);
  }

  lemma NonEmptyPrefix(items: seq<string>, i: nat)
    requires i <= |items|
    ensures NonEmpty(items[..i]) <= NonEmpty(items)
  {
    assert items == items[..i] + items[i..];
    NonEmptyOfSum(items[..i], items[i..], items);
  }

  lemma NonEmptyOfSum(a: seq<string>, b: seq<string>, all: seq<string>)
    requires all == a + b
    ensures NonEmpty(a) <= NonEmpty(all)
  {
    NonEmptyAppend(a, b);
  }

  // ---------------------------------------------------------------- what the root depends on

  function LowerAll(parts: seq<string>): (r: seq<string>)
    ensures |r| == |parts| && forall i :: 0 <= i < |parts| ==> r[i] == ToLower(parts[i])
  {
    if parts == [] then [] else [ToLower(parts[0])] + LowerAll(parts[1..])
  }

  lemma LowerRoot(a: string, b: string)
    ensures ToLower("\\\\" + a + "\\" + b) == "\\\\" + ToLower(a) + "\\" + ToLower(b)
  {
    LowerAppend("\\\\" + a + "\\", b);
    LowerAppend("\\\\" + a, "\\");
    LowerAppend("\\\\", a);
    assert ToLower("\\\\") == "\\\\" && ToLower("\\") == "\\";
  }

  /** Only the first two pieces matter, and only up to case. */
  lemma RootDependsOnPieces(p: string, q: string)
    requires LowerAll(Fields(p, Backslash)) == LowerAll(Fields(q, Backslash))
    ensures Root(p) == Root(q)
  {
    var a, b := Fields(p, Backslash), Fields(q, Backslash);
    assert |a| == |b|;
    if |a| >= 2 {
      LowerRoot(a[0], a[1]);
      LowerRoot(b[0], b[1]);
      assert LowerAll(a)[0] == ToLower(a[0]) && LowerAll(b)[0] == ToLower(b[0]);
      assert LowerAll(a)[1] == ToLower(a[1]) && LowerAll(b)[1] == ToLower(b[1]);
    }
  }

  /** The root of `\\h\s`, whatever follows: both names, in lower case. */
  lemma RootOfShare(h: string, s: string, sub: string)
    requires h != "" && s != "" && Free(h, Backslash) && Free(s, Backslash)
    ensures var share := ['\\', '\\'] + h + ['\\'] + s;
            var root := ['\\', '\\'] + ToLower(h) + ['\\'] + ToLower(s);
            Root(share) == Ok(root) && Root(share + ['\\'] + sub) == Ok(root)
  {
    FieldsOfPair(h, s);
    LowerRoot(h, s);
    assert "\\\\" + h + "\\" + s == ['\\', '\\'] + h + ['\\'] + s;
    RootIgnoresSubpath("\\\\" + h + "\\" + s, sub);
  }

  /** A path has a root exactly when it has two pieces, and two paths have the same root exactly when their first two
      pieces are equal up to case. */
  lemma SameRootIff(p: string, q: string)
    ensures Root(p).Ok? <==> |Fields(p, Backslash)| >= 2
    ensures Root(p).Ok? && Root(q).Ok? ==>
              var a, b := Fields(p, Backslash), Fields(q, Backslash);
              Root(p) == Root(q) <==> EqualFold(a[0], b[0]) && EqualFold(a[1], b[1])
  {
    if Root(p).Ok? && Root(q).Ok? {
      var a, b := Fields(p, Backslash), Fields(q, Backslash);
      LowerRoot(a[0], a[1]);
      LowerRoot(b[0], b[1]);
      LowerPair(p, a[0], a[1]);
      LowerPair(q, b[0], b[1]);
      var x, y := [ToLower(a[0]), ToLower(a[1])], [ToLower(b[0]), ToLower(b[1])];
      assert x == y ==> x[0] == y[0] && x[1] == y[1];
    }
  }

  /** Two pieces in lower case can be read back from the path they make. */
  lemma LowerPair(p: string, a: string, b: string)
    requires a in Fields(p, Backslash) && b in Fields(p, Backslash)
    ensures Fields("\\\\" + ToLower(a) + "\\" + ToLower(b), Backslash) == [ToLower(a), ToLower(b)]
  {
    PieceIsPlain(p, a);
    PieceIsPlain(p, b);
    FieldsOfPair(ToLower(a), ToLower(b));
  }

  lemma LowerHead(s: string)
    requires s != ""
    ensures ToLower(s) == [LowerChar(s[0])] + ToLower(s[1..])
  {
  }

  lemma {:induction false} SplitLower(s: string)
    ensures Split(ToLower(s), Backslash) == LowerAll(Split(s, Backslash))
    decreases |s|
  {
    if s != "" {
      SplitLower(s[1..]);
      LowerHead(s);
      var rest := Split(s[1..], Backslash);
      assert ToLower(s)[1..] == ToLower(s[1..]) && ToLower(s)[0] == LowerChar(s[0]);
      assert s[0] == '\\' <==> LowerChar(s[0]) == '\\';
      assert LowerAll(rest) == [ToLower(rest[0])] + LowerAll(rest[1..]);
      LowerHead([s[0]] + rest[0]);
      assert ([s[0]] + rest[0])[1..] == rest[0];
    }
  }

  lemma {:induction false} NonEmptyLower(parts: seq<string>)
    ensures NonEmpty(LowerAll(parts)) == LowerAll(NonEmpty(parts))
    decreases |parts|
  {
    if parts != [] {
      NonEmptyLower(parts[1..]);
      var rest := NonEmpty(parts[1..]);
      assert LowerAll(parts)[1..] == LowerAll(parts[1..]);
      assert ToLower(parts[0]) == "" <==> parts[0] == "";
      if parts[0] == "" {
        assert [] + rest == rest;
      } else {
        assert LowerAll([parts[0]] + rest) == [ToLower(parts[0])] + LowerAll(rest);
      }
    }
  }

  lemma FieldsLower(s: string)
    ensures Fields(ToLower(s), Backslash) == LowerAll(Fields(s, Backslash))
  {
    SplitLower(s);
    NonEmptyLower(Split(s, Backslash));
  }

  /** The case of ASCII letters does not matter. */
  lemma RootIgnoresCase(p: string, q: string)
    requires EqualFold(p, q)
    ensures Root(p) == Root(q)
  {
    FieldsLower(p);
    FieldsLower(q);
    RootDependsOnPieces(p, q);
  }

  /** Nothing below the share matters, nor do trailing backslashes (`sub` may be empty). */
  lemma RootIgnoresSubpath(p: string, sub: string)
    requires Root(p).Ok?
    ensures Root(p + "\\" + sub) == Root(p)
  {
    FieldsAppend(p, '\\', sub, Backslash);
  }

  lemma FieldsOfRepeat(a: string, b: string)
    ensures Fields(a + "\\" + "\\" + b, Backslash) == Fields(a + "\\" + b, Backslash)
  {
    FieldsAppend(a, '\\', b, Backslash);
    FieldsAppend(a + "\\", '\\', b, Backslash);
    FieldsAppend(a, '\\', "", Backslash);
    assert a + "\\" + "" == a + "\\";
    assert Split("", Backslash) == [""] && [""][1..] == [];
    assert Fields("", Backslash) == [] + NonEmpty([]);
  }

  /** A repeated backslash counts as one. */
  lemma RootIgnoresRepeats(a: string, b: string)
    ensures Root(a + "\\" + "\\" + b) == Root(a + "\\" + b)
  {
    FieldsOfRepeat(a, b);
  }

  /** The root of a root is itself. */
  lemma RootIdempotent(p: string)
    requires Root(p).Ok?
    ensures Root(Root(p).value) == Root(p)
  {
    var parts := Fields(p, Backslash);
    var a, b := parts[0], parts[1];
    PieceIsPlain(p, a);
    PieceIsPlain(p, b);
    var full := "\\\\" + a + "\\" + b;
    RootIgnoresCase(ToLower(full), full) by { LowerIdempotent(full); }
    FieldsOfPair(a, b);
  }

  lemma PieceIsPlain(p: string, x: string)
    requires x in Fields(p, Backslash)
    ensures x != "" && Free(x, Backslash)
  {
    NonEmptyIn(Split(p, Backslash), x);
    SplitPartsFree(p, Backslash);
  }

  lemma FieldsOfPair(a: string, b: string)
    requires a != "" && b != "" && Free(a, Backslash) && Free(b, Backslash)
    ensures Fields("\\\\" + a + "\\" + b, Backslash) == [a, b]
  {
    SplitFree(a, Backslash);
    SplitFree(b, Backslash);
    assert Split("", Backslash) == [""];
    assert NonEmpty([a]) == [a] + NonEmpty([]) && NonEmpty([b]) == [b] + NonEmpty([])
        && NonEmpty([""]) == [] + NonEmpty([]);
    FieldsAppend(a, '\\', b, Backslash);
    var ab := a + ['\\'] + b;
    FieldsAppend("", '\\', ab, Backslash);
    FieldsAppend("", '\\', "" + ['\\'] + ab, Backslash);
    assert "\\\\" + a + "\\" + b == "" + ['\\'] + ("" + ['\\'] + ab);
  }

  // ---------------------------------------------------------------- mount and unmount meet

  function ToBackslashes(s: string): (r: string)
    ensures |r| == |s| && forall i :: 0 <= i < |s| ==> r[i] == if s[i] == '/' then '\\' else s[i]
  {
    if s == "" then "" else [if s[0] == '/' then '\\' else s[0]] + ToBackslashes(s[1..])
  }

  /** strings.TrimSuffix(s, "\\") */
  function TrimBackslash(s: string): string {
    if s != "" && s[|s| - 1] == '\\' then s[..|s| - 1] else s
  }

  /** The share SMBMount locks and counts under. */
  function MountShare(source: string): Result<string> {
    Root(TrimBackslash(ToBackslashes(source)))
  }

  /** The share SMBUnmount locks and counts under. */
  function UnmountShare(link: string): Result<string> {
    Root(TrimBackslash(link))
  }

  lemma FieldsTrimBackslash(s: string)
    ensures Fields(TrimBackslash(s), Backslash) == Fields(s, Backslash)
  {
    if s != "" && s[|s| - 1] == '\\' {
      var t := s[..|s| - 1];
      assert s == t + ['\\'] + "";
      FieldsAppend(t, '\\', "", Backslash);
      assert Split("", Backslash) == [""];
      assert Fields("", Backslash) == [] + NonEmpty([""][1..]);
    }
  }

  lemma {:induction false} SplitBackslashes(s: string)
    ensures Split(ToBackslashes(s), Backslash) == Split(s, {'/', '\\'})
    decreases |s|
  {
    if s != "" {
      SplitBackslashes(s[1..]);
      assert ToBackslashes(s)[1..] == ToBackslashes(s[1..]);
    }
  }

  /** The share computed at unmount is the one used at mount, for every link that spells the source's
      host, share and subpath with either slash, any repetition of slashes, and any case. */
  lemma UnmountFindsMountShare(source: string, link: string)
    requires LowerAll(Fields(link, Backslash)) == LowerAll(Fields(source, {'/', '\\'}))
    ensures UnmountShare(link) == MountShare(source)
  {
    FieldsTrimBackslash(link);
    FieldsTrimBackslash(ToBackslashes(source));
    SplitBackslashes(source);
    RootDependsOnPieces(TrimBackslash(link), TrimBackslash(ToBackslashes(source)));
  }
}
