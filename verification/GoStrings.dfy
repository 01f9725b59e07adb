/** The operations of Go's `strings` package that the driver uses. Letters are compared as ASCII. */
module GoStrings {

  /** No character of `s` is in `cs`. */
  predicate Free(s: string, cs: set<char>) {
    forall i :: 0 <= i < |s| ==> s[i] !in cs
  }

  // ---------------------------------------------------------------- Split, Join, FieldsFunc

  /** The pieces of `s` between separators: one more than there are separators. */
  function Split(s: string, seps: set<char>): (parts: seq<string>)
    ensures |parts| >= 1
  {
    if s == "" then [""]
    else
      Lead(s[0], Split(s[1..], seps), seps)
  }

  /** The pieces of a string from its first character and the pieces of the rest. */
  function Lead(c: char, rest: seq<string>, seps: set<char>): (parts: seq<string>)
    requires |rest| >= 1
    ensures |parts| >= 1
  {
    if c in seps then [""] + rest else [[c] + rest[0]] + rest[1..]
  }

  lemma LeadAppend(c: char, a: seq<string>, b: seq<string>, seps: set<char>)
    requires |a| >= 1
    ensures Lead(c, a + b, seps) == Lead(c, a, seps) + b
  {
    assert (a + b)[1..] == a[1..] + b;
  }

  function Join(parts: seq<string>, sep: char): string {
    if parts == [] then ""
    else if |parts| == 1 then parts[0]
    else parts[0] + [sep] + Join(parts[1..], sep)
  }

  function NonEmpty(parts: seq<string>): seq<string> {
    if parts == [] then []
    else (if parts[0] == "" then [] else [parts[0]]) + NonEmpty(parts[1..])
  }

  /** strings.FieldsFunc: the non-empty pieces. */
  function Fields(s: string, seps: set<char>): seq<string> {
    NonEmpty(Split(s, seps))
  }

  lemma {:induction false} SplitFree(s: string, seps: set<char>)
    requires Free(s, seps)
    ensures Split(s, seps) == [s]
  {
    if s != "" {
      SplitFree(s[1..], seps);
      assert [s[0]] + s[1..] == s;
    }
  }

  /** Splitting distributes over putting a separator between two strings. */
  lemma {:induction false} SplitAppend(a: string, c: char, b: string, seps: set<char>)
    requires c in seps
    ensures Split(a + [c] + b, seps) == Split(a, seps) + Split(b, seps)
  {
    var s := a + [c] + b;
    if a == "" {
      assert s[1..] == b;
    } else {
      SplitAppend(a[1..], c, b, seps);
      LeadAppend(a[0], Split(a[1..], seps), Split(b, seps), seps);
      assert s[0] == a[0] && s[1..] == a[1..] + [c] + b;
    }
  }

  lemma {:induction false} SplitPartsFree(s: string, seps: set<char>)
    ensures forall i :: 0 <= i < |Split(s, seps)| ==> Free(Split(s, seps)[i], seps)
  {
    if s != "" {
      SplitPartsFree(s[1..], seps);
    }
  }

  /** Splitting undoes joining when no part contains the separator. */
  lemma {:induction false} SplitJoin(parts: seq<string>, sep: char)
    requires |parts| >= 1 && forall i :: 0 <= i < |parts| ==> Free(parts[i], {sep})
    ensures Split(Join(parts, sep), {sep}) == parts
  {
    SplitFree(parts[0], {sep});
    if |parts| > 1 {
      SplitJoin(parts[1..], sep);
      SplitAppend(parts[0], sep, Join(parts[1..], sep), {sep});
    }
  }

  lemma {:induction false} JoinSplit(s: string, sep: char)
    ensures Join(Split(s, {sep}), sep) == s
  {
    if s != "" {
      JoinSplit(s[1..], sep);
      var rest := Split(s[1..], {sep});
      var parts := Split(s, {sep});
      if s[0] == sep {
        assert parts[1..] == rest;
      } else {
        assert parts[1..] == rest[1..];
      }
    }
  }

  lemma {:induction false} NonEmptyAppend(a: seq<string>, b: seq<string>)
    ensures NonEmpty(a + b) == NonEmpty(a) + NonEmpty(b)
  {
    if a == [] {
      assert a + b == b;
    } else {
      var head := if a[0] == "" then [] else [a[0]];
      calc {
        NonEmpty(a + b);
        { assert (a + b)[1..] == a[1..] + b; }
        head + NonEmpty(a[1..] + b);
        { NonEmptyAppend(a[1..], b); }
        head + (NonEmpty(a[1..]) + NonEmpty(b));
        (head + NonEmpty(a[1..])) + NonEmpty(b);
        NonEmpty(a) + NonEmpty(b);
      }
    }
  }

  /** The fields of two strings joined by a separator are the fields of both. */
  lemma FieldsAppend(a: string, c: char, b: string, seps: set<char>)
    requires c in seps
    ensures Fields(a + [c] + b, seps) == Fields(a, seps) + Fields(b, seps)
  {
    SplitAppend(a, c, b, seps);
    NonEmptyAppend(Split(a, seps), Split(b, seps));
  }

  lemma {:induction false} NonEmptyIn(parts: seq<string>, x: string)
    ensures x in NonEmpty(parts) <==> x in parts && x != ""
  {
    if parts != [] {
      NonEmptyIn(parts[1..], x);
    }
  }

  // ---------------------------------------------------------------- Trim

  function TrimLeft(s: string, c: char): string {
    if s != "" && s[0] == c then TrimLeft(s[1..], c) else s
  }

  function TrimRight(s: string, c: char): string {
    if s != "" && s[|s| - 1] == c then TrimRight(s[..|s| - 1], c) else s
  }

  function Trim(s: string, c: char): string {
    TrimRight(TrimLeft(s, c), c)
  }

  predicate Trimmed(s: string, c: char) {
    s == "" || (s[0] != c && s[|s| - 1] != c)
  }

  lemma {:induction false} TrimLeftIs(s: string, c: char)
    ensures |TrimLeft(s, c)| <= |s| && TrimLeft(s, c) == s[|s| - |TrimLeft(s, c)|..]
    ensures TrimLeft(s, c) == "" || TrimLeft(s, c)[0] != c
  {
    if s != "" && s[0] == c {
      TrimLeftIs(s[1..], c);
    }
  }

  lemma {:induction false} TrimRightIs(s: string, c: char)
    ensures TrimRight(s, c) <= s
    ensures TrimRight(s, c) == "" || TrimRight(s, c)[|TrimRight(s, c)| - 1] != c
  {
    if s != "" && s[|s| - 1] == c {
      TrimRightIs(s[..|s| - 1], c);
    }
  }

  /** Trimming leaves a middle part of the string that neither starts nor ends with the cut character. */
  lemma TrimIsTrimmed(s: string, c: char)
    ensures Trimmed(Trim(s, c), c)
    ensures |Trim(s, c)| <= |s| && forall cs :: Free(s, cs) ==> Free(Trim(s, c), cs)
  {
    var t := TrimLeft(s, c);
    TrimLeftIs(s, c);
    TrimRightIs(t, c);
    forall cs | Free(s, cs)
      ensures Free(Trim(s, c), cs)
    {
      assert forall i :: 0 <= i < |Trim(s, c)| ==> Trim(s, c)[i] == t[i] == s[|s| - |t| + i];
    }
  }

  lemma TrimFixed(s: string, c: char)
    requires Trimmed(s, c)
    ensures Trim(s, c) == s
  {
  }

  /** Trimming a separator changes no field. */
  lemma {:induction false} FieldsTrimLeft(s: string, c: char, seps: set<char>)
    requires c in seps
    ensures Fields(TrimLeft(s, c), seps) == Fields(s, seps)
  {
    if s != "" && s[0] == c {
      FieldsTrimLeft(s[1..], c, seps);
    }
  }

  lemma {:induction false} FieldsTrimRight(s: string, c: char, seps: set<char>)
    requires c in seps
    ensures Fields(TrimRight(s, c), seps) == Fields(s, seps)
  {
    if s != "" && s[|s| - 1] == c {
      var t := s[..|s| - 1];
      FieldsTrimRight(t, c, seps);
      assert s == t + [c] + "";
      FieldsAppend(t, c, "", seps);
      assert Split("", seps) == [""];
      assert Fields("", seps) == [] + NonEmpty([""][1..]);
    }
  }

  lemma FieldsTrim(s: string, c: char, seps: set<char>)
    requires c in seps
    ensures Fields(Trim(s, c), seps) == Fields(s, seps)
  {
    FieldsTrimLeft(s, c, seps);
    FieldsTrimRight(TrimLeft(s, c), c, seps);
  }

  // ---------------------------------------------------------------- case

  function LowerChar(c: char): (r: char)
    ensures !('A' <= r <= 'Z')
  {
    if 'A' <= c <= 'Z' then ((c as int) + 32) as char else c
  }

  function ToLower(s: string): (r: string)
    ensures |r| == |s| && forall i :: 0 <= i < |s| ==> r[i] == LowerChar(s[i])
  {
    if s == "" then "" else [LowerChar(s[0])] + ToLower(s[1..])
  }

  predicate EqualFold(a: string, b: string) {
    ToLower(a) == ToLower(b)
  }

  lemma {:induction false} LowerAppend(a: string, b: string)
    ensures ToLower(a + b) == ToLower(a) + ToLower(b)
  {
    var x, y := ToLower(a + b), ToLower(a) + ToLower(b);
    assert |x| == |y|;
    forall i | 0 <= i < |x|
      ensures x[i] == y[i]
    {
      assert x[i] == LowerChar((a + b)[i]);
    }
  }

  lemma {:induction false} LowerIdempotent(s: string)
    ensures ToLower(ToLower(s)) == ToLower(s)
  {
  }

  predicate HasPrefix(s: string, p: string) {
    p <= s
  }
}
