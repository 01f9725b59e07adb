/** Substitution of pv/pvc metadata in a subdirectory template (replaceWithMap in pkg/smb/smb.go). The map is
    iterated in an arbitrary order, one ReplaceAll per key, and the node repeats the substitution on what
    the controller already substituted. */
module Templates {
  import opened GoStrings

  const PvcName := "${pvc.metadata.name}"
  const PvcNamespace := "${pvc.metadata.namespace}"
  const PvName := "${pv.metadata.name}"
  const Placeholders: set<string> := {PvcName, PvcNamespace, PvName}

  /** strings.ReplaceAll for a non-empty `old`: occurrences from left to right, without overlap. */
  function ReplaceAll(s: string, old': string, new': string): string
    requires old' != ""
    decreases |s|
  {
    if s == "" then ""
    else if old' <= s then new' + ReplaceAll(s[|old'|..], old', new')
    else [s[0]] + ReplaceAll(s[1..], old', new')
  }

  /** One pass over the map's keys in the order `keys`. */
  function ReplaceInOrder(s: string, keys: seq<string>, m: map<string, string>): string
    requires forall k :: k in keys ==> k in m
    decreases |keys|
  {
    if keys == [] then s
    else
      var t := if keys[0] != "" then ReplaceAll(s, keys[0], m[keys[0]]) else s;
      ReplaceInOrder(t, keys[1..], m)
  }

  /** The placeholder `s` starts with, if any. */
  function Leading(s: string): (k: string)
    ensures k != "" ==> k in Placeholders && k <= s
  {
    if PvcName <= s then PvcName
    else if PvcNamespace <= s then PvcNamespace
    else if PvName <= s then PvName
    else ""
  }

  /** Every '$' starts a complete placeholder. */
  predicate WellFormed(s: string)
    decreases |s|
  {
    if s == "" then true
    else if Leading(s) != "" then WellFormed(s[|Leading(s)|..])
    else s[0] != '$' && WellFormed(s[1..])
  }

  /** All placeholders the map knows, replaced in one simultaneous left-to-right pass. */
  function Substitute(s: string, m: map<string, string>): string
    decreases |s|
  {
    if s == "" then ""
    else
      var k := Leading(s);
      if k != "" then (if k in m then m[k] else k) + Substitute(s[|k|..], m)
      else [s[0]] + Substitute(s[1..], m)
  }

  predicate DollarFreeValues(m: map<string, string>) {
    forall k :: k in m ==> Free(m[k], {'$'})
  }

  /** Neither does `j` occur in `v`, nor can an occurrence of it start in `v` and end in what follows. */
  predicate Clear(v: string, j: string) {
    forall i :: 0 <= i < |v| ==> !(j <= v[i..]) && !(v[i..] <= j)
  }

  /** No value disturbs the replacement of another key, unless that key stands for itself. */
  predicate Harmless(m: map<string, string>) {
    forall k, j :: k in m && j in m && j != k && m[j] != j ==> Clear(m[k], j)
  }

  /** One of the orders in which a loop over the map can meet its keys. */
  ghost predicate Order(keys: seq<string>, m: map<string, string>) {
    && (forall k :: k in keys <==> k in m)
    && (forall i, j :: 0 <= i < j < |keys| ==> keys[i] != keys[j])
  }

  // ---------------------------------------------------------------- placeholders

  /** A placeholder has its only '$' in front, and no placeholder is a prefix of another. */
  lemma PlaceholderShape(k: string)
    requires k in Placeholders
    ensures |k| > 2 && k[0] == '$' && Free(k[1..], {'$'})
  {
    assert |PvcName| == 20 && |PvcNamespace| == 25 && |PvName| == 19;
    assert Free(PvcName[1..], {'$'}) && Free(PvcNamespace[1..], {'$'}) && Free(PvName[1..], {'$'});
  }

  lemma PlaceholdersApart(j: string, k: string, s: string)
    requires j in Placeholders && k in Placeholders && j <= s && k <= s
    ensures j == k
  {
    assert PvcName[4] == 'c' && PvcNamespace[4] == 'c' && PvName[4] == '.';
    assert PvcName[19] == '}' && PvcNamespace[19] == 's';
    assert j[4] == s[4] == k[4];
  }

  // ---------------------------------------------------------------- ReplaceAll

  lemma ClearRest(a: string, k: string)
    requires a != "" && Clear(a, k)
    ensures Clear(a[1..], k) && !(k <= a) && !(a <= k)
  {
    var t := a[1..];
    forall i | 0 <= i < |t|
      ensures !(k <= t[i..]) && !(t[i..] <= k)
    {
      assert t[i..] == a[i + 1..];
    }
    assert a[0..] == a;
  }

  lemma PrefixOfSum(k: string, a: string, b: string)
    requires k <= a + b
    ensures k <= a || a <= k
  {
    if |k| <= |a| {
      assert k == (a + b)[..|k|] == a[..|k|];
    } else {
      assert a == (a + b)[..|a|] == k[..|a|];
    }
  }

  /** ReplaceAll passes over text in which no occurrence starts. */
  lemma {:induction false} ReplaceSkips(a: string, b: string, k: string, v: string)
    requires k != "" && Clear(a, k)
    ensures ReplaceAll(a + b, k, v) == a + ReplaceAll(b, k, v)
    decreases |a|
  {
    if a == "" {
      assert a + b == b;
    } else {
      ClearRest(a, k);
      if k <= a + b {
        PrefixOfSum(k, a, b);
      }
      ReplaceSkips(a[1..], b, k, v);
      assert (a + b)[0] == a[0] && (a + b)[1..] == a[1..] + b;
      Regroup(a, ReplaceAll(b, k, v));
    }
  }

  /** Text without '$' is clear of everything that starts with one. */
  lemma DollarFreeIsClear(a: string, k: string)
    requires Free(a, {'$'}) && k != "" && k[0] == '$'
    ensures Clear(a, k)
  {
    forall i | 0 <= i < |a|
      ensures !(k <= a[i..]) && !(a[i..] <= k)
    {
      assert a[i..][0] == a[i];
    }
  }

  lemma ReplaceHits(k: string, b: string, v: string)
    requires k != ""
    ensures ReplaceAll(k + b, k, v) == v + ReplaceAll(b, k, v)
  {
    assert (k + b)[|k|..] == b;
  }

  lemma ReplaceMisses(j: string, b: string, k: string, v: string)
    requires j in Placeholders && k in Placeholders && j != k
    ensures ReplaceAll(j + b, k, v) == j + ReplaceAll(b, k, v)
  {
    PlaceholderShape(j);
    PlaceholderShape(k);
    if k <= j + b {
      PlaceholdersApart(j, k, j + b);
    }
    ReplaceMissesText(j, b, k, v);
  }

  lemma ReplaceMissesText(j: string, b: string, k: string, v: string)
    requires j != "" && Free(j[1..], {'$'}) && k != "" && k[0] == '$' && !(k <= j + b)
    ensures ReplaceAll(j + b, k, v) == j + ReplaceAll(b, k, v)
  {
    assert (j + b)[1..] == j[1..] + b;
    DollarFreeIsClear(j[1..], k);
    ReplaceSkips(j[1..], b, k, v);
    assert [j[0]] + (j[1..] + ReplaceAll(b, k, v)) == j + ReplaceAll(b, k, v);
  }

  // ---------------------------------------------------------------- one key at a time equals all at once

  /** Replacing one more key turns the substitution for `m` into the one for `m[k := v]`. */
  lemma {:induction false} OneMoreKey(s: string, m: map<string, string>, k: string, v: string)
    requires WellFormed(s) && k in Placeholders && k !in m && forall j :: j in m ==> Clear(m[j], k)
    ensures ReplaceAll(Substitute(s, m), k, v) == Substitute(s, m[k := v])
    decreases |s|
  {
    if s != "" {
      var j := Leading(s);
      PlaceholderShape(k);
      if j != "" {
        var rest := s[|j|..];
        OneMoreKey(rest, m, k, v);
        if j == k {
          ReplaceHits(k, Substitute(rest, m), v);
        } else if j in m {
          ReplaceSkips(m[j], Substitute(rest, m), k, v);
        } else {
          ReplaceMisses(j, Substitute(rest, m), k, v);
        }
      } else {
        OneMoreKey(s[1..], m, k, v);
        DollarFreeIsClear([s[0]], k);
        ReplaceSkips([s[0]], Substitute(s[1..], m), k, v);
      }
    }
  }

  lemma {:induction false} ReplaceByItself(s: string, k: string)
    requires k != ""
    ensures ReplaceAll(s, k, k) == s
    decreases |s|
  {
    if s != "" {
      if k <= s {
        ReplaceByItself(s[|k|..], k);
        assert k + s[|k|..] == s;
      } else {
        ReplaceByItself(s[1..], k);
        assert [s[0]] + s[1..] == s;
      }
    }
  }

  /** A key that stands for itself may as well be missing. */
  lemma {:induction false} SelfKeyIsNoKey(s: string, m: map<string, string>, k: string)
    requires k !in m
    ensures Substitute(s, m[k := k]) == Substitute(s, m)
    decreases |s|
  {
    if s != "" {
      SelfKeyIsNoKey(s[FrontLength(s)..], m, k);
    }
  }

  /** The length of the placeholder or character in front. */
  function FrontLength(s: string): (n: nat)
    requires s != ""
    ensures 0 < n <= |s|
  {
    if Leading(s) != "" then |Leading(s)| else 1
  }

  lemma FrontKept(s: string)
    requires s != ""
    ensures Substitute(s, map[]) == s[..FrontLength(s)] + Substitute(s[FrontLength(s)..], map[])
  {
    assert s[..FrontLength(s)] == if Leading(s) != "" then Leading(s) else [s[0]];
  }

  lemma {:induction false} NothingToReplace(s: string)
    ensures Substitute(s, map[]) == s
    decreases |s|
  {
    if s != "" {
      var n := FrontLength(s);
      calc {
        Substitute(s, map[]);
        { FrontKept(s); }
        s[..n] + Substitute(s[n..], map[]);
        { NothingToReplace(s[n..]); }
        s[..n] + s[n..];
        s;
      }
    }
  }

  function Restrict(m: map<string, string>, keys: set<string>): map<string, string> {
    map k | k in m && k in keys :: m[k]
  }

  lemma NextKey(s: string, m: map<string, string>, done: set<string>, k: string)
    requires WellFormed(s) && m.Keys <= Placeholders && Harmless(m) && k in m && k !in done
    ensures ReplaceAll(Substitute(s, Restrict(m, done)), k, m[k]) == Substitute(s, Restrict(m, done + {k}))
  {
    var r := Restrict(m, done);
    assert r[k := m[k]] == Restrict(m, done + {k});
    if m[k] == k {
      ReplaceByItself(Substitute(s, r), k);
      SelfKeyIsNoKey(s, r, k);
    } else {
      OneMoreKey(s, r, k, m[k]);
    }
  }

  /** Sequential replacement, in any order of the keys, equals one simultaneous substitution. */
  lemma {:induction false} AnyOrderIsSimultaneous(
    s: string, done: set<string>, keys: seq<string>, m: map<string, string>)
    requires WellFormed(s) && m.Keys <= Placeholders && Harmless(m)
    requires forall k :: k in keys ==> k in m && k !in done
    requires forall i, j :: 0 <= i < j < |keys| ==> keys[i] != keys[j]
    requires forall k :: k in m ==> k in done || k in keys
    ensures ReplaceInOrder(Substitute(s, Restrict(m, done)), keys, m) == Substitute(s, m)
    decreases |keys|
  {
    if keys == [] {
      assert Restrict(m, done) == m;
    } else {
      PlaceholderShape(keys[0]);
      NextKey(s, m, done, keys[0]);
      AnyOrderIsSimultaneous(s, done + {keys[0]}, keys[1..], m);
    }
  }

  lemma OrderIsSimultaneous(s: string, keys: seq<string>, m: map<string, string>)
    requires WellFormed(s) && m.Keys <= Placeholders && Harmless(m) && Order(keys, m)
    ensures ReplaceInOrder(s, keys, m) == Substitute(s, m)
  {
    NothingToReplace(s);
    assert Restrict(m, {}) == map[];
    AnyOrderIsSimultaneous(s, {}, keys, m);
  }

  // ---------------------------------------------------------------- the condition is exact

  lemma {:induction false} ReplaceLength(x: string, j: string, w: string)
    requires j != ""
    ensures |w| >= |j| ==> |ReplaceAll(x, j, w)| >= |x|
    ensures |w| <= |j| ==> |ReplaceAll(x, j, w)| <= |x|
    decreases |x|
  {
    if x != "" {
      ReplaceLength(if j <= x then x[|j|..] else x[1..], j, w);
    }
  }

  /** Replacing something that occurs by something else changes the text. */
  lemma {:induction false} ReplaceChanges(x: string, j: string, w: string, i: nat)
    requires j != "" && w != j && i <= |x| && j <= x[i..]
    ensures ReplaceAll(x, j, w) != x
    decreases |x|
  {
    var r := ReplaceAll(x, j, w);
    if j <= x {
      ReplaceLength(x[|j|..], j, w);
      if |w| == |j| {
        assert r[..|j|] == w && x[..|j|] == j;
      }
    } else {
      assert x[0..] == x;
      assert x[1..][i - 1..] == x[i..];
      ReplaceChanges(x[1..], j, w, i - 1);
      assert r[1..] == ReplaceAll(x[1..], j, w);
    }
  }

  lemma {:induction false} ReplaceAppend(s: string, a: seq<string>, b: seq<string>, m: map<string, string>)
    requires forall k :: k in a + b ==> k in m
    ensures forall k :: k in a || k in b ==> k in m
    ensures ReplaceInOrder(s, a + b, m) == ReplaceInOrder(ReplaceInOrder(s, a, m), b, m)
    decreases |a|
  {
    assert forall k :: k in a || k in b ==> k in a + b;
    if a == [] {
      assert a + b == b;
    } else {
      assert (a + b)[1..] == a[1..] + b;
      var t := if a[0] != "" then ReplaceAll(s, a[0], m[a[0]]) else s;
      ReplaceAppend(t, a[1..], b, m);
    }
  }

  /** Keys other than `k` leave `k` followed by '$'-free text alone. */
  lemma {:induction false} OthersPassOver(k: string, rest: string, keys: seq<string>, m: map<string, string>)
    requires k in Placeholders && Free(rest, {'$'}) && forall j :: j in keys ==> j in m && j in Placeholders && j != k
    ensures ReplaceInOrder(k + rest, keys, m) == k + rest
    decreases |keys|
  {
    if keys != [] {
      var j := keys[0];
      OtherPassesOver(k, rest, j, m[j]);
      PlaceholderShape(j);
      OthersPassOver(k, rest, keys[1..], m);
    }
  }

  lemma OtherPassesOver(k: string, rest: string, j: string, w: string)
    requires k in Placeholders && j in Placeholders && j != k && Free(rest, {'$'})
    ensures ReplaceAll(k + rest, j, w) == k + rest
  {
    ReplaceMisses(k, rest, j, w);
    PlaceholderShape(j);
    DollarFreeIsClear(rest, j);
    ReplaceSkips(rest, "", j, w);
    assert rest + "" == rest;
  }

  lemma KeyPassesOver(k: string, rest: string, w: string)
    requires k in Placeholders && Free(rest, {'$'})
    ensures ReplaceAll(k + rest, k, w) == w + rest
  {
    PlaceholderShape(k);
    ReplaceHits(k, rest, w);
    DollarFreeIsClear(rest, k);
    ReplaceSkips(rest, "", k, w);
    assert rest + "" == rest;
  }

  lemma SubstituteFront(k: string, rest: string, m: map<string, string>)
    requires k in Placeholders && k in m && Free(rest, {'$'})
    ensures WellFormed(k + rest) && Substitute(k + rest, m) == m[k] + rest
  {
    PlainText(rest, m);
    FrontReplaced(k, rest, m);
  }

  lemma {:induction false} PlainText(s: string, m: map<string, string>)
    requires Free(s, {'$'})
    ensures WellFormed(s) && Substitute(s, m) == s
    decreases |s|
  {
    if s != "" {
      PlainText(s[1..], m);
      ConsText(s[0], s[1..], m);
      assert [s[0]] + s[1..] == s;
    }
  }

  lemma FrontPlaceholder(k: string, b: string)
    requires k in Placeholders
    ensures Leading(k + b) == k && (k + b)[|k|..] == b
  {
    assert k <= k + b;
    PlaceholdersApart(Leading(k + b), k, k + b);
  }

  /** Where a value is not clear of a key: the text that completes the key, if it only starts in the value. */
  function Completion(v: string, j: string, i: nat): string
    requires i < |v|
  {
    if v[i..] <= j then j[|v| - i..] else ""
  }

  lemma CompletionCompletes(v: string, j: string, i: nat)
    requires i < |v| && j in Placeholders && (j <= v[i..] || v[i..] <= j)
    ensures Free(Completion(v, j, i), {'$'}) && j <= (v + Completion(v, j, i))[i..]
  {
    var rest := Completion(v, j, i);
    PlaceholderShape(j);
    assert (v + rest)[i..] == v[i..] + rest;
    if v[i..] <= j {
      assert forall n :: 0 <= n < |rest| ==> rest[n] == j[1..][|v| - i + n - 1];
      assert v[i..] + rest == j;
    }
  }

  lemma {:induction false} Enumerate(keys: set<string>) returns (s: seq<string>)
    ensures forall k :: k in s <==> k in keys
    ensures forall i, j :: 0 <= i < j < |s| ==> s[i] != s[j]
  {
    s := [];
    if keys != {} {
      var k :| k in keys;
      var t := Enumerate(keys - {k});
      s := [k] + t;
    }
  }

  /** `k` followed by '$'-free text, with `k` and `j` as the last two keys: if `j` comes first only `k` is replaced,
      otherwise `j` is also replaced in what `k` brought in. */
  lemma LastTwoKeys(k: string, j: string, rest: string, others: seq<string>, m: map<string, string>)
    requires k in Placeholders && j in Placeholders && j != k && k in m && j in m && Free(rest, {'$'})
    requires forall x :: x in others ==> x in m && x in Placeholders && x != k
    ensures ReplaceInOrder(k + rest, others + [j, k], m) == m[k] + rest
    ensures ReplaceInOrder(k + rest, others + [k, j], m) == ReplaceAll(m[k] + rest, j, m[j])
  {
    OthersPassOver(k, rest, others, m);
    PlaceholderShape(k);
    PlaceholderShape(j);
    ReplaceAppend(k + rest, others, [j, k], m);
    ReplaceAppend(k + rest, others, [k, j], m);
    TwoKeys(k + rest, j, k, m);
    TwoKeys(k + rest, k, j, m);
    OtherPassesOver(k, rest, j, m[j]);
    KeyPassesOver(k, rest, m[k]);
  }

  lemma LastTwoMakeOrder(others: seq<string>, x: string, y: string, m: map<string, string>)
    requires x in m && y in m && x != y
    requires forall k :: k in others <==> k in m && k != x && k != y
    requires forall i, j :: 0 <= i < j < |others| ==> others[i] != others[j]
    ensures Order(others + [x, y], m)
  {
    var all, n := others + [x, y], |others|;
    assert all[n] == x && all[n + 1] == y;
    forall i, j | 0 <= i < j < |all|
      ensures all[i] != all[j]
    {
      assert i < n ==> all[i] == others[i] && all[i] in others;
      assert j < n ==> all[j] == others[j];
    }
  }

  /** A value that is not clear of another key: a template and two orders with different results, one of which is the
      simultaneous substitution. */
  lemma HarmfulOrders(m: map<string, string>, k: string, j: string, i: nat)
      returns (s: string, a: seq<string>, b: seq<string>)
    requires m.Keys <= Placeholders && k in m && j in m && j != k && m[j] != j
    requires i < |m[k]| && (j <= m[k][i..] || m[k][i..] <= j)
    ensures WellFormed(s) && Order(a, m) && Order(b, m)
    ensures ReplaceInOrder(s, a, m) == Substitute(s, m) && ReplaceInOrder(s, b, m) != Substitute(s, m)
  {
    var rest := Completion(m[k], j, i);
    CompletionCompletes(m[k], j, i);
    var others := Enumerate(m.Keys - {k, j});
    s, a, b := k + rest, others + [j, k], others + [k, j];
    LastTwoMakeOrder(others, j, k, m);
    LastTwoMakeOrder(others, k, j, m);
    SubstituteFront(k, rest, m);
    LastTwoKeys(k, j, rest, others, m);
    PlaceholderShape(j);
    ReplaceChanges(m[k] + rest, j, m[j], i);
  }

  /** On every well-formed template, every order of the keys gives the simultaneous substitution. */
  ghost predicate Simultaneous(m: map<string, string>) {
    forall s, keys :: WellFormed(s) && Order(keys, m) ==> ReplaceInOrder(s, keys, m) == Substitute(s, m)
  }

  /** On every well-formed template, all orders of the keys agree. */
  ghost predicate OrderIrrelevant(m: map<string, string>) {
    forall s, a, b :: WellFormed(s) && Order(a, m) && Order(b, m) ==> ReplaceInOrder(s, a, m) == ReplaceInOrder(s, b, m)
  }

  /** Sequential replacement is simultaneous substitution, and the order of the map is irrelevant, exactly when no
      value disturbs another key. */
  lemma SimultaneousIff(m: map<string, string>)
    requires m.Keys <= Placeholders
    ensures Simultaneous(m) <==> Harmless(m)
    ensures OrderIrrelevant(m) <==> Harmless(m)
  {
    if Harmless(m) {
      forall s, keys | WellFormed(s) && Order(keys, m)
        ensures ReplaceInOrder(s, keys, m) == Substitute(s, m)
      {
        OrderIsSimultaneous(s, keys, m);
      }
    } else {
      var k, j :| k in m && j in m && j != k && m[j] != j && !Clear(m[k], j);
      var i :| 0 <= i < |m[k]| && !(!(j <= m[k][i..]) && !(m[k][i..] <= j));
      var s, a, b := HarmfulOrders(m, k, j, i);
    }
  }

  lemma DollarFreeIsQuiet(m: map<string, string>)
    requires m.Keys <= Placeholders && DollarFreeValues(m)
    ensures Quiet(m)
  {
    forall k, j | k in m && j in m
      ensures Clear(m[k], j)
    {
      PlaceholderShape(j);
      DollarFreeIsClear(m[k], j);
    }
  }

  // ---------------------------------------------------------------- a second pass

  /** No value disturbs any key, itself included, that is replaced by something else. */
  predicate Quiet(m: map<string, string>) {
    forall k, j :: k in m && j in m && m[j] != j ==> Clear(m[k], j)
  }

  predicate Occurs(j: string, t: string) {
    exists i :: 0 <= i <= |t| && j <= t[i..]
  }

  lemma {:induction false} ReplaceNothing(t: string, j: string, w: string)
    requires j != "" && !Occurs(j, t)
    ensures ReplaceAll(t, j, w) == t
    decreases |t|
  {
    if t != "" {
      assert t[0..] == t;
      var rest := t[1..];
      assert forall i :: 0 <= i <= |rest| ==> rest[i..] == t[i + 1..];
      ReplaceNothing(rest, j, w);
      assert [t[0]] + rest == t;
    }
  }

  /** A replacement leaves a text alone exactly when it changes nothing or has nothing to replace. */
  lemma ReplaceLeavesIff(t: string, j: string, w: string)
    requires j != ""
    ensures ReplaceAll(t, j, w) == t <==> w == j || !Occurs(j, t)
  {
    if w == j {
      ReplaceByItself(t, j);
    } else if Occurs(j, t) {
      var i :| 0 <= i <= |t| && j <= t[i..];
      ReplaceChanges(t, j, w, i);
    } else {
      ReplaceNothing(t, j, w);
    }
  }

  /** No key that is replaced by something else occurs in the text. */
  predicate Undisturbed(t: string, m: map<string, string>) {
    forall j :: j in m && m[j] != j ==> !Occurs(j, t)
  }

  lemma {:induction false} UndisturbedStays(t: string, keys: seq<string>, m: map<string, string>)
    requires (forall k :: k in keys ==> k in m) && forall k :: k in keys && k != "" ==> m[k] == k || !Occurs(k, t)
    ensures ReplaceInOrder(t, keys, m) == t
    decreases |keys|
  {
    if keys != [] {
      if keys[0] != "" {
        ReplaceLeavesIff(t, keys[0], m[keys[0]]);
      }
      UndisturbedStays(t, keys[1..], m);
    }
  }

  /** What was substituted contains no key of which all values are clear. */
  lemma {:induction false} NoKeyLeft(s: string, m: map<string, string>, j: string, w: string)
    requires WellFormed(s) && j in m && j in Placeholders && forall k :: k in m ==> Clear(m[k], j)
    ensures ReplaceAll(Substitute(s, m), j, w) == Substitute(s, m)
    decreases |s|
  {
    if s != "" {
      var k := Leading(s);
      PlaceholderShape(j);
      if k != "" {
        NoKeyLeft(s[|k|..], m, j, w);
        if k in m {
          ReplaceSkips(m[k], Substitute(s[|k|..], m), j, w);
        } else {
          ReplaceMisses(k, Substitute(s[|k|..], m), j, w);
        }
      } else {
        NoKeyLeft(s[1..], m, j, w);
        DollarFreeIsClear([s[0]], j);
        ReplaceSkips([s[0]], Substitute(s[1..], m), j, w);
      }
    }
  }

  lemma SubstitutedIsUndisturbed(s: string, m: map<string, string>)
    requires WellFormed(s) && m.Keys <= Placeholders && Quiet(m)
    ensures Undisturbed(Substitute(s, m), m)
  {
    forall j | j in m && m[j] != j
      ensures !Occurs(j, Substitute(s, m))
    {
      PlaceholderShape(j);
      NoKeyLeft(s, m, j, m[j]);
      ReplaceLeavesIff(Substitute(s, m), j, m[j]);
    }
  }

  /** Replacing again, in whatever order, what was already replaced changes nothing. */
  lemma SecondPassChangesNothing(s: string, a: seq<string>, b: seq<string>, m: map<string, string>)
    requires WellFormed(s) && m.Keys <= Placeholders && Quiet(m) && Order(a, m) && Order(b, m)
    ensures ReplaceInOrder(s, b, m) == ReplaceInOrder(s, a, m)
    ensures ReplaceInOrder(ReplaceInOrder(s, a, m), b, m) == ReplaceInOrder(s, a, m)
  {
    OrderIsSimultaneous(s, a, m);
    OrderIsSimultaneous(s, b, m);
    SubstitutedIsUndisturbed(s, m);
    UndisturbedStays(Substitute(s, m), b, m);
  }

  /** A value in which its own key occurs or starts: a template whose result a second pass changes. */
  lemma HarmfulSecondPass(m: map<string, string>, k: string, i: nat)
      returns (s: string, a: seq<string>)
    requires m.Keys <= Placeholders && Harmless(m) && k in m && m[k] != k
    requires i < |m[k]| && (k <= m[k][i..] || m[k][i..] <= k)
    ensures WellFormed(s) && Order(a, m)
    ensures ReplaceInOrder(ReplaceInOrder(s, a, m), a, m) != ReplaceInOrder(s, a, m)
  {
    var rest := Completion(m[k], k, i);
    CompletionCompletes(m[k], k, i);
    var others := Enumerate(m.Keys - {k});
    s, a := k + rest, others + [k];
    LastMakesOrder(others, k, m);
    SubstituteFront(k, rest, m);
    OrderIsSimultaneous(s, a, m);
    var t := m[k] + rest;
    forall j | j in others
      ensures m[j] == j || !Occurs(j, t)
    {
      OtherLeavesValue(m, k, j, rest);
    }
    UndisturbedStays(t, others, m);
    ReplaceOneMore(t, others, k, m);
    PlaceholderShape(k);
    ReplaceChanges(t, k, m[k], i);
  }

  lemma LastMakesOrder(others: seq<string>, k: string, m: map<string, string>)
    requires k in m && forall j :: j in others <==> j in m && j != k
    requires forall i, j :: 0 <= i < j < |others| ==> others[i] != others[j]
    ensures Order(others + [k], m)
  {
    var all := others + [k];
    assert all[|others|] == k;
    assert forall i :: 0 <= i < |others| ==> all[i] == others[i] && all[i] in others;
  }

  lemma OtherLeavesValue(m: map<string, string>, k: string, j: string, rest: string)
    requires m.Keys <= Placeholders && Harmless(m) && k in m && j in m && j != k && Free(rest, {'$'})
    ensures m[j] == j || !Occurs(j, m[k] + rest)
  {
    if m[j] != j {
      PlaceholderShape(j);
      ReplaceSkips(m[k], rest, j, m[j]);
      DollarFreeIsClear(rest, j);
      ReplaceSkips(rest, "", j, m[j]);
      assert rest + "" == rest;
      ReplaceLeavesIff(m[k] + rest, j, m[j]);
    }
  }

  /** On every well-formed template the node, in its own order, names the directory the controller made, whether it is
      given the template or the controller's result. */
  ghost predicate NodeAgrees(m: map<string, string>) {
    forall s, a, b :: WellFormed(s) && Order(a, m) && Order(b, m) ==>
      && ReplaceInOrder(s, b, m) == ReplaceInOrder(s, a, m)
      && ReplaceInOrder(ReplaceInOrder(s, a, m), b, m) == ReplaceInOrder(s, a, m)
  }

  /** That is so exactly when no value disturbs any key, itself included. */
  lemma NodeAgreesIff(m: map<string, string>)
    requires m.Keys <= Placeholders
    ensures NodeAgrees(m) <==> Quiet(m)
  {
    if Quiet(m) {
      forall s, a, b | WellFormed(s) && Order(a, m) && Order(b, m)
        ensures ReplaceInOrder(s, b, m) == ReplaceInOrder(s, a, m)
        ensures ReplaceInOrder(ReplaceInOrder(s, a, m), b, m) == ReplaceInOrder(s, a, m)
      {
        SecondPassChangesNothing(s, a, b, m);
      }
    } else {
      SimultaneousIff(m);
      if Harmless(m) {
        var k, j :| k in m && j in m && m[j] != j && !Clear(m[k], j);
        var i :| 0 <= i < |m[k]| && !(!(j <= m[k][i..]) && !(m[k][i..] <= j));
        var s, a := HarmfulSecondPass(m, k, i);
      } else {
        assert !OrderIrrelevant(m);
      }
    }
  }

  lemma NoneLeads(s: string)
    requires s != "" && s[0] != '$'
    ensures Leading(s) == ""
  {
    if Leading(s) != "" {
      PlaceholderShape(Leading(s));
    }
  }

  lemma Regroup(a: string, b: string)
    requires a != ""
    ensures a + b == [a[0]] + (a[1..] + b)
  {
  }

  lemma ConsText(c: char, s: string, m: map<string, string>)
    requires c != '$' && WellFormed(s)
    ensures WellFormed([c] + s) && Substitute([c] + s, m) == [c] + Substitute(s, m)
  {
    NoneLeads([c] + s);
    assert ([c] + s)[1..] == s;
  }

  lemma FrontReplaced(k: string, b: string, m: map<string, string>)
    requires k in Placeholders && WellFormed(b)
    ensures WellFormed(k + b) && Substitute(k + b, m) == (if k in m then m[k] else k) + Substitute(b, m)
  {
    FrontPlaceholder(k, b);
  }

  // ---------------------------------------------------------------- the loop

  ghost predicate InSomeOrder(s: string, m: map<string, string>, r: string) {
    exists keys :: Order(keys, m) && r == ReplaceInOrder(s, keys, m)
  }

  lemma SomeOrderIsSimultaneous(s: string, m: map<string, string>, r: string)
    requires WellFormed(s) && m.Keys <= Placeholders && Harmless(m) && InSomeOrder(s, m, r)
    ensures r == Substitute(s, m)
  {
    var keys :| Order(keys, m) && r == ReplaceInOrder(s, keys, m);
    OrderIsSimultaneous(s, keys, m);
  }

  /** replaceWithMap: whatever order the keys come in, the result is one of the sequential replacements, and for
      well-formed templates and values that disturb no other key it is the simultaneous substitution. */
  method ReplaceWithMap(str: string, m: map<string, string>) returns (r: string)
    ensures InSomeOrder(str, m, r)
    ensures WellFormed(str) && m.Keys <= Placeholders && Harmless(m) ==> r == Substitute(str, m)
  {
    r := str;
    var left := m.Keys;
    ghost var keys: seq<string> := [];
    while left != {}
      invariant left <= m.Keys
      invariant forall k :: k in keys <==> k in m && k !in left
      invariant forall i, j :: 0 <= i < j < |keys| ==> keys[i] != keys[j]
      invariant r == ReplaceInOrder(str, keys, m)
      decreases left
    {
      var k :| k in left;
      ReplaceOneMore(str, keys, k, m);
      if k != "" {
        r := ReplaceAll(r, k, m[k]);
      }
      keys := keys + [k];
      left := left - {k};
    }
    assert Order(keys, m);
    if WellFormed(str) && m.Keys <= Placeholders && Harmless(m) {
      OrderIsSimultaneous(str, keys, m);
    }
  }

  lemma {:induction false} ReplaceOneMore(s: string, keys: seq<string>, k: string, m: map<string, string>)
    requires k in m && forall j :: j in keys ==> j in m
    ensures ReplaceInOrder(s, keys + [k], m) ==
            var t := ReplaceInOrder(s, keys, m); if k != "" then ReplaceAll(t, k, m[k]) else t
    decreases |keys|
  {
    if keys == [] {
      assert keys + [k] == [k] && [k][1..] == [];
    } else {
      var t := if keys[0] != "" then ReplaceAll(s, keys[0], m[keys[0]]) else s;
      ReplaceOneMore(t, keys[1..], k, m);
      assert (keys + [k])[1..] == keys[1..] + [k];
    }
  }

  lemma TwoKeys(s: string, j: string, k: string, m: map<string, string>)
    requires j != "" && k != "" && j in m && k in m
    ensures ReplaceInOrder(s, [j, k], m) == ReplaceAll(ReplaceAll(s, j, m[j]), k, m[k])
  {
    assert [j, k][1..] == [k] && [k][1..] == [];
    var t := ReplaceAll(s, j, m[j]);
    assert ReplaceInOrder(t, [k], m) == ReplaceInOrder(ReplaceAll(t, k, m[k]), [], m);
  }

  // ---------------------------------------------------------------- controller and node agree

  predicate Overwrites(m: map<string, string>, key: string, k: string) {
    if k in m then EqualFold(k, key) else k == key && forall j :: j in m ==> !EqualFold(j, key)
  }

  /** setKeyValueInMap: keys are compared without regard to case; if several match, one of them is overwritten. */
  method SetKeyValueInMap(m: map<string, string>, key: string, value: string) returns (r: map<string, string>)
    ensures exists k :: Overwrites(m, key, k) && r == m[k := value]
  {
    var left := m.Keys;
    while left != {}
      invariant left <= m.Keys
      invariant forall k :: k in m && k !in left ==> !EqualFold(k, key)
      decreases left
    {
      var k :| k in left;
      if EqualFold(k, key) {
        assert Overwrites(m, key, k);
        return m[k := value];
      }
      left := left - {k};
    }
    assert Overwrites(m, key, key);
    return m[key := value];
  }

  /** The node replaces placeholders in the subdirectory it is given: the template itself when the controller created
      nothing, or the controller's result. Either way it names the directory the controller derived. */
  lemma NodeNamesControllerDirectory(template: string, m: map<string, string>, made: string, given: string,
      staged: string)
    requires WellFormed(template) && m.Keys <= Placeholders && Quiet(m)
    requires InSomeOrder(template, m, made) && (given == template || given == made) && InSomeOrder(given, m, staged)
    ensures staged == made
  {
    var a :| Order(a, m) && made == ReplaceInOrder(template, a, m);
    var b :| Order(b, m) && staged == ReplaceInOrder(given, b, m);
    SecondPassChangesNothing(template, a, b, m);
  }
}
