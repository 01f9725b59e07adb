/** The option list of a Linux stage (pkg/smb/nodeserver.go:281-294, 613-620, 796-806). The mount flags of the request
    are a Go slice: an append may write into its backing array or copy it, and the mode entries are rewritten in
    place. */
module MountOptions {
  import opened GoStrings
  import opened Modes
  import opened Numerals

  // ---------------------------------------------------------------- one entry

  /** The entry is `flag=xyz` with no further '='. */
  predicate Matches(option: string, flag: string) {
    var parts := Split(option, {'='});
    |parts| == 2 && parts[0] == flag
  }

  function Entry(flag: string, value: string): string {
    flag + ['='] + value
  }

  function RaisedEntry(option: string, flag: string): string {
    if Matches(option, flag) then Entry(flag, EnableGroupRwx(Split(option, {'='})[1])) else option
  }

  lemma EntryMatches(flag: string, value: string, other: string)
    requires Free(flag, {'='}) && Free(value, {'='})
    ensures Split(Entry(flag, value), {'='}) == [flag, value]
    ensures Matches(Entry(flag, value), other) <==> other == flag
  {
    SplitAppend(flag, '=', value, {'='});
    SplitFree(flag, {'='});
    SplitFree(value, {'='});
  }

  /** A matching entry is its flag and value. */
  lemma MatchIsEntry(option: string, flag: string)
    requires Matches(option, flag)
    ensures Free(flag, {'='}) && Free(Split(option, {'='})[1], {'='})
    ensures option == Entry(flag, Split(option, {'='})[1])
  {
    var parts := Split(option, {'='});
    SplitPartsFree(option, {'='});
    JoinSplit(option, '=');
    assert Join(parts[1..], '=') == parts[1];
  }

  lemma EnableStaysFree(value: string)
    requires Free(value, {'='})
    ensures Free(EnableGroupRwx(value), {'='})
  {
    assert '=' !in value;
    EnableAddsDigitsOnly(value, '=');
  }

  /** Rewriting an entry keeps its key and does nothing the second time. */
  lemma RaisedEntryIs(option: string, flag: string, other: string)
    ensures Matches(RaisedEntry(option, flag), other) == Matches(option, other)
    ensures RaisedEntry(RaisedEntry(option, flag), flag) == RaisedEntry(option, flag)
  {
    if Matches(option, flag) {
      var value := Split(option, {'='})[1];
      MatchIsEntry(option, flag);
      EnableStaysFree(value);
      EntryMatches(flag, EnableGroupRwx(value), other);
      EntryMatches(flag, EnableGroupRwx(value), flag);
      EnableTwice(value);
    }
  }

  // ---------------------------------------------------------------- the list

  predicate Has(options: seq<string>, flag: string) {
    exists i :: 0 <= i < |options| && Matches(options[i], flag)
  }

  /** The list with the first entry of the flag rewritten. */
  function Raised(options: seq<string>, flag: string): (r: seq<string>)
    ensures |r| == |options|
  {
    if options == [] then []
    else if Matches(options[0], flag) then [RaisedEntry(options[0], flag)] + options[1..]
    else [options[0]] + Raised(options[1..], flag)
  }

  /** Entry `i` is the first one with the flag. */
  predicate FirstAt(options: seq<string>, flag: string, i: nat) {
    i < |options| && Matches(options[i], flag) && forall j :: 0 <= j < i ==> !Matches(options[j], flag)
  }

  /** Only the first entry of the flag is rewritten; every other one stays in its place. */
  lemma {:induction false} RaisedAt(options: seq<string>, flag: string, i: nat)
    requires i < |options|
    ensures Raised(options, flag)[i] == if FirstAt(options, flag, i) then RaisedEntry(options[i], flag) else options[i]
  {
    if !Matches(options[0], flag) && i > 0 {
      RaisedAt(options[1..], flag, i - 1);
      var rest := options[1..];
      assert rest[i - 1] == options[i];
      assert FirstAt(options, flag, i) ==> FirstAt(rest, flag, i - 1) by {
        assert forall j :: 0 <= j < i - 1 ==> rest[j] == options[j + 1];
      }
      assert FirstAt(rest, flag, i - 1) ==> FirstAt(options, flag, i) by {
        assert forall j :: 0 < j < i ==> options[j] == rest[j - 1];
      }
    }
  }

  /** Rewriting keeps the keys of all entries. */
  lemma RaisedKeepsKeys(options: seq<string>, flag: string, other: string)
    ensures forall i :: 0 <= i < |options| ==> Matches(Raised(options, flag)[i], other) == Matches(options[i], other)
    ensures Has(Raised(options, flag), other) == Has(options, other)
  {
    forall i | 0 <= i < |options|
      ensures Matches(Raised(options, flag)[i], other) == Matches(options[i], other)
    {
      RaisedAt(options, flag, i);
      RaisedEntryIs(options[i], flag, other);
    }
  }

  lemma RaisedKeepsFirst(options: seq<string>, flag: string, other: string, i: nat)
    ensures FirstAt(Raised(options, flag), other, i) == FirstAt(options, other, i)
  {
    RaisedKeepsKeys(options, flag, other);
  }

  lemma RaisedTwice(options: seq<string>, flag: string)
    ensures Raised(Raised(options, flag), flag) == Raised(options, flag)
  {
    var once := Raised(options, flag);
    forall i | 0 <= i < |options|
      ensures Raised(once, flag)[i] == once[i]
    {
      RaisedAt(options, flag, i);
      RaisedAt(once, flag, i);
      RaisedKeepsFirst(options, flag, flag, i);
      RaisedEntryIs(options[i], flag, flag);
    }
  }

  lemma KeysApart(option: string, f: string, g: string)
    requires f != g
    ensures !(Matches(option, f) && Matches(option, g))
  {
  }

  lemma RaisedCommute(options: seq<string>, f: string, g: string)
    requires f != g
    ensures Raised(Raised(options, f), g) == Raised(Raised(options, g), f)
  {
    var x, y := Raised(options, f), Raised(options, g);
    forall i | 0 <= i < |options|
      ensures Raised(x, g)[i] == Raised(y, f)[i]
    {
      RaisedAt(options, f, i);
      RaisedAt(options, g, i);
      RaisedAt(x, g, i);
      RaisedAt(y, f, i);
      RaisedKeepsFirst(options, f, g, i);
      RaisedKeepsFirst(options, g, f, i);
    }
  }

  lemma HasAppend(options: seq<string>, more: seq<string>, flag: string)
    ensures Has(options + more, flag) == (Has(options, flag) || Has(more, flag))
  {
    var all := options + more;
    if i :| 0 <= i < |options| && Matches(options[i], flag) {
      assert all[i] == options[i];
    }
    if i :| 0 <= i < |more| && Matches(more[i], flag) {
      assert all[|options| + i] == more[i];
    }
    if i :| 0 <= i < |all| && Matches(all[i], flag) {
      assert all[i] == if i < |options| then options[i] else more[i - |options|];
    }
  }

  lemma {:induction false} RaisedAppend(options: seq<string>, more: seq<string>, flag: string)
    requires !Has(more, flag)
    ensures Raised(options + more, flag) == Raised(options, flag) + more
    ensures Has(options + more, flag) == Has(options, flag)
  {
    HasAppend(options, more, flag);
    RaisedAbsent(more, flag);
    RaisedConcat(options, more, flag);
  }

  lemma {:induction false} RaisedConcat(options: seq<string>, more: seq<string>, flag: string)
    requires Raised(more, flag) == more
    ensures Raised(options + more, flag) == Raised(options, flag) + more
  {
    if options == [] {
      assert options + more == more;
    } else {
      var rest := options[1..];
      assert (options + more)[1..] == rest + more;
      RaisedConcat(rest, more, flag);
    }
  }

  lemma RaisedAbsent(options: seq<string>, flag: string)
    requires !Has(options, flag)
    ensures Raised(options, flag) == options
  {
    forall i | 0 <= i < |options|
      ensures Raised(options, flag)[i] == options[i]
    {
      RaisedAt(options, flag, i);
    }
  }

  // ---------------------------------------------------------------- the assembly

  predicate GidPresent(flags: seq<string>) {
    exists i :: 0 <= i < |flags| && HasPrefix(flags[i], "gid")
  }

  const FileMode := "file_mode"
  const DirMode := "dir_mode"

  function WithMode(options: seq<string>, flag: string, default: string): seq<string> {
    if Has(options, flag) then Raised(options, flag) else options + [Entry(flag, default)]
  }

  function Assemble(flags: seq<string>, group: string, domain: string): seq<string> {
    var options :=
      if GidPresent(flags) || group == "" then flags
      else WithMode(WithMode(flags + [Entry("gid", group)], FileMode, "0774"), DirMode, "0775");
    if domain == "" then options else options + [Entry("domain", domain)]
  }

  /** The flags with both mode entries rewritten. */
  function BothRaised(flags: seq<string>): seq<string> {
    Raised(Raised(flags, FileMode), DirMode)
  }

  function Default(flags: seq<string>, flag: string, default: string): seq<string> {
    if Has(flags, flag) then [] else [Entry(flag, default)]
  }

  /** What is added after the flags. */
  function Tail(flags: seq<string>, group: string): seq<string> {
    [Entry("gid", group)] + Default(flags, FileMode, "0774") + Default(flags, DirMode, "0775")
  }

  lemma NameApart(name: string, value: string, flag: string)
    requires Free(name, {'='}) && name != flag
    ensures !Has([Entry(name, value)], flag)
  {
    SplitAppend(name, '=', value, {'='});
    SplitFree(name, {'='});
  }

  lemma ModeIs(options: seq<string>, flag: string, default: string)
    ensures WithMode(options, flag, default) == Raised(options, flag) + Default(options, flag, default)
  {
    if !Has(options, flag) {
      RaisedAbsent(options, flag);
    }
  }

  lemma HasNothing(flag: string)
    ensures !Has([], flag)
  {
  }

  /** In closed form: the flags with both entries rewritten, then the group, then the defaults of the missing ones. */
  lemma GroupedIs(flags: seq<string>, group: string)
    ensures WithMode(WithMode(flags + [Entry("gid", group)], FileMode, "0774"), DirMode, "0775")
         == BothRaised(flags) + Tail(flags, group)
  {
    var gid := [Entry("gid", group)];
    var file, dir := Default(flags, FileMode, "0774"), Default(flags, DirMode, "0775");
    NameApart("gid", group, FileMode);
    NameApart("gid", group, DirMode);
    NameApart(FileMode, "0774", DirMode);
    HasNothing(DirMode);
    RaisedAppend(flags, gid, FileMode);
    ModeIs(flags + gid, FileMode, "0774");
    var x := Raised(flags, FileMode);
    RaisedAppend(x + gid, file, DirMode);
    RaisedAppend(x, gid, DirMode);
    RaisedKeepsKeys(flags, FileMode, DirMode);
    ModeIs(x + gid + file, DirMode, "0775");
    assert BothRaised(flags) + gid + file + dir == BothRaised(flags) + (gid + file + dir);
  }

  /** The flags after a run over them: untouched, or with one or both entries rewritten in place. */
  predicate MayBecome(flags: seq<string>, later: seq<string>) {
    later == flags || later == Raised(flags, FileMode) || later == BothRaised(flags)
  }

  lemma RaisedEntryGid(option: string, flag: string)
    requires |flag| > 0 && flag[0] != 'g'
    ensures HasPrefix(RaisedEntry(option, flag), "gid") == HasPrefix(option, "gid")
  {
    if Matches(option, flag) {
      MatchIsEntry(option, flag);
      assert option[0] == flag[0] && RaisedEntry(option, flag)[0] == flag[0];
    }
  }

  lemma RaisedKeepsGid(flags: seq<string>, flag: string)
    requires |flag| > 0 && flag[0] != 'g'
    ensures GidPresent(Raised(flags, flag)) == GidPresent(flags)
  {
    forall i | 0 <= i < |flags|
      ensures HasPrefix(Raised(flags, flag)[i], "gid") == HasPrefix(flags[i], "gid")
    {
      RaisedAt(flags, flag, i);
      RaisedEntryGid(flags[i], flag);
    }
  }

  lemma LaterKeepsKeys(flags: seq<string>, later: seq<string>)
    requires MayBecome(flags, later)
    ensures GidPresent(later) == GidPresent(flags)
    ensures Has(later, FileMode) == Has(flags, FileMode) && Has(later, DirMode) == Has(flags, DirMode)
  {
    var x := Raised(flags, FileMode);
    RaisedKeepsGid(flags, FileMode);
    RaisedKeepsGid(x, DirMode);
    RaisedKeepsKeys(flags, FileMode, FileMode);
    RaisedKeepsKeys(flags, FileMode, DirMode);
    RaisedKeepsKeys(x, DirMode, FileMode);
    RaisedKeepsKeys(x, DirMode, DirMode);
  }

  lemma LaterRaisesAlike(flags: seq<string>, later: seq<string>)
    requires MayBecome(flags, later)
    ensures BothRaised(later) == BothRaised(flags)
  {
    var x := Raised(flags, FileMode);
    RaisedTwice(flags, FileMode);
    RaisedTwice(x, DirMode);
    RaisedCommute(x, DirMode, FileMode);
  }

  /** Running the assembly again, on flags an earlier run may have edited in place, gives the same list whenever the
      group is added; and otherwise the flags were not edited. */
  lemma RerunGivesSameList(flags: seq<string>, later: seq<string>, group: string, domain: string)
    requires MayBecome(flags, later) && (GidPresent(flags) || group == "" ==> later == flags)
    ensures Assemble(later, group, domain) == Assemble(flags, group, domain)
  {
    LaterKeepsKeys(flags, later);
    LaterRaisesAlike(flags, later);
    GroupedIs(flags, group);
    GroupedIs(later, group);
  }

  /** Of the request's flags, in their order, only the first file_mode and the first dir_mode entries are altered,
      only when a group is added, and each only in its mode. */
  lemma OnlyFirstModesAltered(flags: seq<string>, group: string, domain: string, i: nat)
    requires i < |flags|
    ensures |flags| <= |Assemble(flags, group, domain)|
    ensures Assemble(flags, group, domain)[i] ==
            if GidPresent(flags) || group == "" then flags[i]
            else if FirstAt(flags, FileMode, i) then RaisedEntry(flags[i], FileMode)
            else if FirstAt(flags, DirMode, i) then RaisedEntry(flags[i], DirMode)
            else flags[i]
  {
    GroupedIs(flags, group);
    RaisedAt(flags, FileMode, i);
    RaisedAt(Raised(flags, FileMode), DirMode, i);
    RaisedKeepsFirst(flags, FileMode, DirMode, i);
  }

  // ---------------------------------------------------------------- what the group gets

  /** The entry's mode, if readable, lets the group read, write and execute. */
  predicate OpensToGroup(option: string)
    requires |Split(option, {'='})| == 2
  {
    var mode := ParseInt(Split(option, {'='})[1]);
    mode.Some? && mode.value >= 0 ==> Bit(mode.value, 3) && Bit(mode.value, 4) && Bit(mode.value, 5)
  }

  lemma RaisedEntryOpens(option: string, flag: string)
    requires Matches(option, flag)
    ensures Matches(RaisedEntry(option, flag), flag) && OpensToGroup(RaisedEntry(option, flag))
  {
    var value := Split(option, {'='})[1];
    MatchIsEntry(option, flag);
    EnableStaysFree(value);
    EntryMatches(flag, EnableGroupRwx(value), flag);
    EnableTwice(value);
    RaisesExactlyGroupBits(EnableGroupRwx(value));
  }

  /** The defaults are fixed points of the rewriting. */
  lemma DefaultsAreRaised()
    ensures EnableGroupRwx("0774") == "0774" && EnableGroupRwx("0775") == "0775"
  {
    Pow2Monotone(10, 63);
    OctalOf(7, 7, 4);
    OctalOf(7, 7, 5);
    OctalParses(508);
    OctalParses(509);
    OrOfDefaults();
  }

  lemma OctalOf(a: nat, b: nat, c: nat)
    requires 0 < a < 8 && b < 8 && c < 8
    ensures Octal(a * 64 + b * 8 + c) == ['0', DigitChar(a), DigitChar(b), DigitChar(c)]
  {
    var n := a * 64 + b * 8 + c;
    assert n / 8 == a * 8 + b && n % 8 == c && (n / 8) / 8 == a && (n / 8) % 8 == b;
    assert Digits(n, 8) == Digits(n / 8, 8) + [DigitChar(c)];
    assert Digits(n / 8, 8) == Digits(a, 8) + [DigitChar(b)];
  }

  lemma OrOfDefaults()
    ensures Or(508, 56) == 508 && Or(509, 56) == 509
  {
    assert Or(1, 0) == 1 && Or(3, 0) == 3 && Or(7, 0) == 7;
    assert Or(15, 1) == 15 && Or(31, 3) == 31 && Or(63, 7) == 63;
    assert Or(127, 14) == 127 && Or(254, 28) == 254;
  }

  /** The first entry of the flag, the one the driver looks at, opens to the group. */
  ghost predicate Grants(options: seq<string>, flag: string) {
    exists i: nat :: FirstAt(options, flag, i) && OpensToGroup(options[i])
  }

  lemma FirstInPrefix(options: seq<string>, more: seq<string>, flag: string, i: nat)
    requires FirstAt(options, flag, i)
    ensures FirstAt(options + more, flag, i) && (options + more)[i] == options[i]
  {
    assert forall j :: 0 <= j < |options| ==> (options + more)[j] == options[j];
  }

  lemma {:induction false} FirstExists(options: seq<string>, flag: string) returns (i: nat)
    requires Has(options, flag)
    ensures FirstAt(options, flag, i)
  {
    i := 0;
    while !Matches(options[i], flag)
      invariant i < |options| && forall j :: 0 <= j < i ==> !Matches(options[j], flag)
      decreases |options| - i
    {
      i := i + 1;
    }
  }

  lemma WithModeGrants(options: seq<string>, flag: string, default: string)
    requires Free(flag, {'='}) && Free(default, {'='}) && EnableGroupRwx(default) == default
    ensures Grants(WithMode(options, flag, default), flag)
  {
    var x := WithMode(options, flag, default);
    if Has(options, flag) {
      var i := FirstExists(options, flag);
      RaisedAt(options, flag, i);
      RaisedKeepsFirst(options, flag, flag, i);
      RaisedEntryOpens(options[i], flag);
    } else {
      EntryMatches(flag, default, flag);
      RaisedEntryOpens(Entry(flag, default), flag);
      assert x[|options|] == Entry(flag, default);
      assert forall j :: 0 <= j < |options| ==> x[j] == options[j];
      assert FirstAt(x, flag, |options|);
    }
  }

  lemma GrantStays(options: seq<string>, flag: string, other: string, default: string)
    requires Grants(options, flag) && flag != other
    ensures Grants(WithMode(options, other, default), flag)
  {
    var i: nat :| FirstAt(options, flag, i) && OpensToGroup(options[i]);
    if Has(options, other) {
      RaisedAt(options, other, i);
      KeysApart(options[i], flag, other);
      RaisedKeepsFirst(options, other, flag, i);
    } else {
      FirstInPrefix(options, [Entry(other, default)], flag, i);
    }
  }

  lemma GrantStaysInPrefix(options: seq<string>, more: seq<string>, flag: string)
    requires Grants(options, flag)
    ensures Grants(options + more, flag)
  {
    var i: nat :| FirstAt(options, flag, i) && OpensToGroup(options[i]);
    FirstInPrefix(options, more, flag, i);
  }

  lemma BothGrant(options: seq<string>, f: string, d: string, g: string, e: string)
    requires Free(f, {'='}) && Free(d, {'='}) && EnableGroupRwx(d) == d
    requires Free(g, {'='}) && Free(e, {'='}) && EnableGroupRwx(e) == e && f != g
    ensures Grants(WithMode(WithMode(options, f, d), g, e), f) && Grants(WithMode(WithMode(options, f, d), g, e), g)
  {
    WithModeGrants(options, f, d);
    GrantStays(WithMode(options, f, d), f, g, e);
    WithModeGrants(WithMode(options, f, d), g, e);
  }

  lemma GroupedGrants(options: seq<string>)
    ensures Grants(WithMode(WithMode(options, FileMode, "0774"), DirMode, "0775"), FileMode)
    ensures Grants(WithMode(WithMode(options, FileMode, "0774"), DirMode, "0775"), DirMode)
  {
    DefaultsAreRaised();
    BothGrant(options, FileMode, "0774", DirMode, "0775");
  }

  lemma ExtendedGrants(y: seq<string>, more: seq<string>, option: string, i: nat)
    requires Grants(y, FileMode) && Grants(y, DirMode) && i < |y| && y[i] == option
    ensures Grants(y + more, FileMode) && Grants(y + more, DirMode) && option in y + more
  {
    GrantStaysInPrefix(y, more, FileMode);
    GrantStaysInPrefix(y, more, DirMode);
    assert (y + more)[i] == option;
  }

  /** Whenever the driver adds the group itself, the list names it, and the first file mode and the first directory
      mode of the list let it read, write and execute. Later entries of the same flags stay as they were given. */
  lemma GroupGetsAccess(flags: seq<string>, group: string, domain: string)
    requires !GidPresent(flags) && group != ""
    ensures var r := Assemble(flags, group, domain);
            Entry("gid", group) in r && Grants(r, FileMode) && Grants(r, DirMode)
  {
    var y := WithMode(WithMode(flags + [Entry("gid", group)], FileMode, "0774"), DirMode, "0775");
    GroupedGrants(flags + [Entry("gid", group)]);
    GroupedIs(flags, group);
    assert y[|flags|] == Entry("gid", group);
    ExtendedGrants(y, if domain == "" then [] else [Entry("domain", domain)], Entry("gid", group), |flags|);
    assert y + [] == y;
  }

  /** An entry matches a flag exactly when it is the flag, '=' and a value without '='. */
  lemma MatchesIff(option: string, flag: string)
    ensures Matches(option, flag) <==>
            '=' !in flag && exists value: string :: '=' !in value && option == flag + "=" + value
  {
    if Matches(option, flag) {
      MatchIsEntry(option, flag);
      var value := Split(option, {'='})[1];
      assert '=' !in value && option == flag + "=" + value;
    }
    if value: string :| '=' !in value && option == flag + "=" + value {
      if '=' !in flag {
        EntryMatches(flag, value, flag);
        assert Entry(flag, value) == option;
      }
    }
  }

  /** The options that come with a group, word by word. */
  lemma GroupedOptions(flags: seq<string>, group: string)
    requires !GidPresent(flags) && group != ""
    ensures Assemble(flags, group, "") ==
            BothRaised(flags) + ["gid=" + group]
            + (if Has(flags, "file_mode") then [] else ["file_mode=0774"])
            + (if Has(flags, "dir_mode") then [] else ["dir_mode=0775"])
  {
    GroupedIs(flags, group);
    EntryIs("gid", group);
    assert "gid" + "=" == "gid=";
    assert Entry("file_mode", "0774") == "file_mode=0774" && Entry("dir_mode", "0775") == "dir_mode=0775";
    var a, b := Default(flags, FileMode, "0774"), Default(flags, DirMode, "0775");
    assert BothRaised(flags) + (["gid=" + group] + a + b) == BothRaised(flags) + ["gid=" + group] + a + b;
  }

  /** The domain, if there is one, comes last and changes nothing before it. */
  lemma DomainComesLast(flags: seq<string>, group: string, domain: string)
    ensures Assemble(flags, group, domain) ==
            Assemble(flags, group, "") + if domain == "" then [] else ["domain=" + domain]
    ensures GidPresent(flags) || group == "" ==> Assemble(flags, group, "") == flags
    ensures !(GidPresent(flags) || group == "") ==> |flags| < |Assemble(flags, group, "")|
    ensures !(GidPresent(flags) || group == "") ==> Assemble(flags, group, "")[|flags|] == "gid=" + group
  {
    GroupedIs(flags, group);
    EntryIs("domain", domain);
    EntryIs("gid", group);
    assert "domain" + "=" == "domain=" && "gid" + "=" == "gid=";
    assert Assemble(flags, group, "") + [] == Assemble(flags, group, "");
  }

  lemma EntryIs(name: string, value: string)
    ensures Entry(name, value) == name + "=" + value
  {
  }

  // ---------------------------------------------------------------- the slice

  /** A Go slice from the start of its backing array. */
  datatype Slice = Slice(backing: array<string>, length: nat)

  ghost predicate Valid(s: Slice) {
    s.length <= s.backing.Length
  }

  ghost function Contents(s: Slice): seq<string>
    requires Valid(s)
    reads s.backing
  {
    s.backing[..s.length]
  }

  /** append: in place while there is room, else into a copy with any number of spare places. */
  method Append(s: Slice, x: string, spare: nat) returns (r: Slice)
    requires Valid(s)
    modifies s.backing
    ensures Valid(r) && Contents(r) == old(Contents(s)) + [x]
    ensures Contents(s) == old(Contents(s))
    ensures r.backing == s.backing || fresh(r.backing)
  {
    if s.length < s.backing.Length {
      s.backing[s.length] := x;
      r := Slice(s.backing, s.length + 1);
    } else {
      var copy := new string[s.length + 1 + spare](_ => "");
      for i := 0 to s.length
        invariant copy[..i] == s.backing[..i] && s.backing[..] == old(s.backing[..])
      {
        copy[i] := s.backing[i];
      }
      copy[s.length] := x;
      r := Slice(copy, s.length + 1);
    }
  }

  /** raiseGroupRWXInMountFlags */
  method RaiseGroupRwxInMountFlags(s: Slice, flag: string) returns (found: bool)
    requires Valid(s)
    modifies s.backing
    ensures Contents(s) == Raised(old(Contents(s)), flag)
    ensures found == Has(old(Contents(s)), flag)
  {
    ghost var options := Contents(s);
    for i := 0 to s.length
      invariant Contents(s) == options
      invariant forall j :: 0 <= j < i ==> !Matches(options[j], flag)
    {
      var parts := Split(s.backing[i], {'='});
      if |parts| != 2 || parts[0] != flag {
        continue;
      }
      s.backing[i] := Entry(flag, EnableGroupRwx(parts[1]));
      FirstRaised(options, flag, i);
      return true;
    }
    RaisedAbsent(options, flag);
    return false;
  }

  lemma FirstRaised(options: seq<string>, flag: string, i: nat)
    requires FirstAt(options, flag, i)
    ensures Raised(options, flag) == options[i := RaisedEntry(options[i], flag)]
    ensures Has(options, flag)
  {
    forall j | 0 <= j < |options|
      ensures Raised(options, flag)[j] == options[i := RaisedEntry(options[i], flag)][j]
    {
      RaisedAt(options, flag, j);
    }
  }

  /** checkGidPresentInMountFlags */
  method CheckGidPresentInMountFlags(s: Slice) returns (present: bool)
    requires Valid(s)
    ensures present == GidPresent(Contents(s))
  {
    for i := 0 to s.length
      invariant forall j :: 0 <= j < i ==> !HasPrefix(s.backing[j], "gid")
    {
      if HasPrefix(s.backing[i], "gid") {
        assert Contents(s)[i] == s.backing[i];
        return true;
      }
    }
    return false;
  }

  /** One mode: rewrite its entry in place, or append the default. The flags, if they share the backing array, are
      rewritten with it. */
  method AddMode(ghost flags: Slice, s: Slice, flag: string, default: string, spare: nat) returns (r: Slice)
    requires Valid(s) && Valid(flags) && flags.length <= s.length
    requires !Has(Contents(s)[flags.length..], flag)
    modifies s.backing
    ensures Valid(r) && Contents(r) == WithMode(old(Contents(s)), flag, default)
    ensures Contents(flags) ==
            if s.backing == flags.backing then Raised(old(Contents(flags)), flag) else old(Contents(flags))
    ensures r.backing == s.backing || fresh(r.backing)
  {
    ghost var before, tail := Contents(s), Contents(s)[flags.length..];
    ghost var mine := Contents(flags);
    RaisedAppend(before[..flags.length], tail, flag);
    assert before == before[..flags.length] + tail;
    assert s.backing == flags.backing ==> mine == before[..flags.length];
    var found := RaiseGroupRwxInMountFlags(s, flag);
    assert s.backing == flags.backing ==> Contents(flags) == Contents(s)[..flags.length];
    r := s;
    if !found {
      r := Append(s, Entry(flag, default), spare);
      RaisedAbsent(before, flag);
      assert s.backing == flags.backing ==> Contents(flags) == Contents(s)[..flags.length];
    }
  }

  method AddGroup(flags: Slice, group: string, spare: nat -> nat) returns (options: Slice)
    requires Valid(flags)
    modifies flags.backing
    ensures Valid(options)
    ensures Contents(options) ==
            WithMode(WithMode(old(Contents(flags)) + [Entry("gid", group)], FileMode, "0774"), DirMode, "0775")
    ensures MayBecome(old(Contents(flags)), Contents(flags))
    ensures options.backing == flags.backing || fresh(options.backing)
    ensures flags.length <= options.length
  {
    ghost var before := Contents(flags);
    options := Append(flags, Entry("gid", group), spare(flags.length));
    GidApart(before, group);
    options := AddMode(flags, options, FileMode, "0774", spare(options.length));
    TailApart(before, group);
    options := AddMode(flags, options, DirMode, "0775", spare(options.length));
  }

  method AddDomain(ghost flags: Slice, s: Slice, domain: string, spare: nat) returns (r: Slice)
    requires Valid(s) && Valid(flags) && flags.length <= s.length
    modifies s.backing
    ensures Valid(r) && Contents(r) == old(Contents(s)) + (if domain == "" then [] else [Entry("domain", domain)])
    ensures Contents(flags) == old(Contents(flags))
  {
    r := s;
    if domain != "" {
      ghost var before := Contents(s);
      r := Append(s, Entry("domain", domain), spare);
      assert s.backing == flags.backing ==> Contents(flags) == before[..flags.length];
    }
  }

  /** The option list of a stage that is not for an ephemeral volume. What it returns is the assembly of the flags it
      was given; the flags themselves may have been edited, and give the same list when used again. */
  method StageOptions(flags: Slice, group: string, domain: string, spare: nat -> nat) returns (options: Slice)
    requires Valid(flags)
    modifies flags.backing
    ensures Valid(options) && Contents(options) == Assemble(old(Contents(flags)), group, domain)
    ensures MayBecome(old(Contents(flags)), Contents(flags))
    ensures Assemble(Contents(flags), group, domain) == Assemble(old(Contents(flags)), group, domain)
  {
    ghost var before := Contents(flags);
    options := flags;
    var gidPresent := CheckGidPresentInMountFlags(flags);
    if !gidPresent && group != "" {
      options := AddGroup(flags, group, spare);
    }
    options := AddDomain(flags, options, domain, spare(options.length));
    RerunGivesSameList(before, Contents(flags), group, domain);
  }

  lemma GidApart(flags: seq<string>, group: string)
    ensures !Has((flags + [Entry("gid", group)])[|flags|..], FileMode)
  {
    NameApart("gid", group, FileMode);
    assert (flags + [Entry("gid", group)])[|flags|..] == [Entry("gid", group)];
  }

  lemma TailApart(flags: seq<string>, group: string)
    ensures var x := WithMode(flags + [Entry("gid", group)], FileMode, "0774");
            |flags| <= |x| && !Has(x[|flags|..], DirMode)
  {
    var gid, file := [Entry("gid", group)], Default(flags, FileMode, "0774");
    NameApart("gid", group, FileMode);
    NameApart("gid", group, DirMode);
    NameApart(FileMode, "0774", DirMode);
    HasNothing(DirMode);
    RaisedAppend(flags, gid, FileMode);
    ModeIs(flags + gid, FileMode, "0774");
    RaisedAppend(gid, file, DirMode);
    var x := WithMode(flags + gid, FileMode, "0774");
    assert x == Raised(flags, FileMode) + (gid + file);
    assert x[|flags|..] == gid + file;
  }
}
