/** Volume identity and the paths derived from it (pkg/smb/controllerserver.go): newSMBVolume, the encoding
    of a volume as an ID, its decoding, and the internal mount and volume paths. */
module VolumeId {
  import opened GoStrings
  import opened Paths
  import opened Wrappers

  datatype Volume = Volume(id: string, source: string, subDir: string, uuid: string, onDelete: string)

  /** The storage class parameters a request carries. `resolved` is `subDir` after template substitution. */
  datatype Params = Params(source: string, subDir: string, resolved: string, onDelete: string)

  datatype Policy = Retain | Archive | Delete

  function PolicyOf(onDelete: string): Policy {
    if EqualFold(onDelete, "retain") then Retain
    else if EqualFold(onDelete, "archive") then Archive
    else Delete
  }

  /** validateOnDeleteValue */
  predicate SupportedOnDelete(onDelete: string) {
    || EqualFold(onDelete, "")
    || EqualFold(onDelete, "delete")
    || EqualFold(onDelete, "retain")
    || EqualFold(onDelete, "archive")
  }

  // ---------------------------------------------------------------- the ID

  /** Only a retain or archive policy is written into the ID. */
  function Recorded(onDelete: string): string {
    if PolicyOf(onDelete).Delete? then "" else onDelete
  }

  function EncodeId(v: Volume): string {
    Join([Trim(v.source, '/'), Trim(v.subDir, '/'), v.uuid, Recorded(v.onDelete)], '#')
  }

  function DecodeId(id: string): Result<Volume> {
    var segments := Split(id, {'#'});
    if |segments| < 2 then Err
    else
      var source := if HasPrefix(segments[0], "//") then segments[0] else "//" + segments[0];
      var subDir := segments[1];
      var uuid := if |segments| >= 3 then segments[2] else "";
      var onDelete := if |segments| >= 4 then segments[3] else "";
      if !ValidPath(subDir) || !ValidPath(uuid) then Err
      else Ok(Volume(id, source, subDir, uuid, onDelete))
  }

  /** newSMBVolume, once the parameters have been read. */
  function NewVolume(name: string, p: Params, defaultPolicy: string): Result<Volume> {
    var subDir := if p.subDir == "" then name else p.resolved;
    var uuid := if p.subDir == "" then "" else name;
    if p.source == "" || !SupportedOnDelete(p.onDelete) || !ValidPath(p.source) || !ValidPath(subDir) then Err
    else
      var v := Volume("", p.source, subDir, uuid, if p.onDelete != "" then p.onDelete else defaultPolicy);
      Ok(v.(id := EncodeId(v)))
  }

  /** The form in which a volume comes back from its ID. */
  function Canonical(v: Volume): Volume {
    Volume(EncodeId(v), "//" + Trim(v.source, '/'), Trim(v.subDir, '/'), v.uuid, Recorded(v.onDelete))
  }

  lemma {:induction false} TrimLeftKeeps(s: string, c: char, x: char)
    requires x in s && x != c
    ensures x in TrimLeft(s, c)
  {
    if s[0] == c {
      TrimLeftKeeps(s[1..], c, x);
    }
  }

  lemma {:induction false} TrimRightKeeps(s: string, c: char, x: char)
    requires x in s && x != c
    ensures x in TrimRight(s, c)
  {
    if s[|s| - 1] == c {
      TrimRightKeeps(s[..|s| - 1], c, x);
    }
  }

  lemma TrimFreeIff(s: string, c: char, x: char)
    requires x != c
    ensures Free(Trim(s, c), {x}) <==> Free(s, {x})
  {
    TrimIsTrimmed(s, c);
    if !Free(s, {x}) {
      TrimLeftKeeps(s, c, x);
      TrimRightKeeps(TrimLeft(s, c), c, x);
    }
  }

  lemma FoldKeepsFree(s: string, word: string)
    requires EqualFold(s, word) && Free(word, {'#'})
    ensures Free(s, {'#'})
  {
    assert |ToLower(s)| == |ToLower(word)|;
    forall i | 0 <= i < |s|
      ensures s[i] != '#'
    {
      assert LowerChar(s[i]) == ToLower(s)[i] == ToLower(word)[i] == LowerChar(word[i]);
    }
  }

  lemma RecordedIsFree(onDelete: string)
    ensures Free(Recorded(onDelete), {'#'})
  {
    WordsAreFree();
    match PolicyOf(onDelete)
    case Retain => FoldKeepsFree(onDelete, "retain");
    case Archive => FoldKeepsFree(onDelete, "archive");
    case Delete =>
  }

  lemma WordsAreFree()
    ensures Free("retain", {'#'}) && Free("archive", {'#'})
  {
  }

  /** The ID starts with the trimmed source, whatever it contains. */
  lemma SegmentsOfId(v: Volume)
    ensures Split(EncodeId(v), {'#'})[0] == Split(Trim(v.source, '/'), {'#'})[0]
    ensures |Split(EncodeId(v), {'#'})| >= 4
  {
    var s, d, u, o := Trim(v.source, '/'), Trim(v.subDir, '/'), v.uuid, Recorded(v.onDelete);
    assert [s, d, u, o][1..] == [d, u, o] && [d, u, o][1..] == [u, o] && [u, o][1..] == [o];
    var uo := u + ['#'] + o;
    var duo := d + ['#'] + uo;
    calc {
      EncodeId(v);
      s + ['#'] + Join([d, u, o], '#');
      { assert Join([d, u, o], '#') == d + ['#'] + Join([u, o], '#'); assert Join([u, o], '#') == uo; }
      s + ['#'] + duo;
    }
    SplitAppend(u, '#', o, {'#'});
    SplitAppend(d, '#', uo, {'#'});
    SplitAppend(s, '#', duo, {'#'});
  }

  /** The ID's length, and its first character: the source's or the separator. */
  lemma IdShape(v: Volume)
    ensures |EncodeId(v)| == |Trim(v.source, '/')| + |Trim(v.subDir, '/')| + |v.uuid| + |Recorded(v.onDelete)| + 3
    ensures EncodeId(v)[0] == if Trim(v.source, '/') == "" then '#' else Trim(v.source, '/')[0]
  {
    IdIs(v);
  }

  lemma SourceSegmentUnslashed(s: string)
    requires Trimmed(s, '/')
    ensures !HasPrefix(Split(s, {'#'})[0], "//")
  {
    var first := Split(s, {'#'})[0];
    if s != "" && s[0] != '#' {
      assert first[0] == s[0] != '/';
      assert "//"[0] == '/';
    } else {
      assert first == "";
    }
  }

  predicate HashFree(v: Volume) {
    Free(v.source, {'#'}) && Free(v.subDir, {'#'}) && Free(v.uuid, {'#'})
  }

  lemma DecodeOfHashFree(v: Volume)
    requires HashFree(v)
    ensures Split(EncodeId(v), {'#'}) == [Trim(v.source, '/'), Trim(v.subDir, '/'), v.uuid, Recorded(v.onDelete)]
  {
    TrimIsTrimmed(v.source, '/');
    TrimIsTrimmed(v.subDir, '/');
    RecordedIsFree(v.onDelete);
    SplitJoin([Trim(v.source, '/'), Trim(v.subDir, '/'), v.uuid, Recorded(v.onDelete)], '#');
  }

  /** Decoding an encoded volume gives its canonical form exactly when no field contains the separator
      and neither the subdirectory nor the uuid has a ".." element. */
  lemma DecodeEncode(v: Volume)
    ensures DecodeId(EncodeId(v)) == Ok(Canonical(v)) <==> HashFree(v) && ValidPath(v.subDir) && ValidPath(v.uuid)
  {
    var s, d := Trim(v.source, '/'), Trim(v.subDir, '/');
    var segments := Split(EncodeId(v), {'#'});
    TrimIsTrimmed(v.source, '/');
    TrimKeepsValid(v.subDir);
    TrimFreeIff(v.source, '/', '#');
    TrimFreeIff(v.subDir, '/', '#');
    SegmentsOfId(v);
    SourceSegmentUnslashed(s);
    if HashFree(v) {
      DecodeOfHashFree(v);
      SplitFree(s, {'#'});
    }
    if DecodeId(EncodeId(v)) == Ok(Canonical(v)) {
      SplitPartsFree(EncodeId(v), {'#'});
      var w := DecodeId(EncodeId(v)).value;
      assert w.source[2..] == segments[0] && ("//" + s)[2..] == s;
      assert Free(segments[0], {'#'}) && Free(segments[1], {'#'}) && Free(segments[2], {'#'});
    }
  }

  /** Encoding the decoded form again gives the identical ID, for every volume. */
  lemma EncodeCanonical(v: Volume)
    ensures EncodeId(Canonical(v)) == EncodeId(v)
  {
    var s := Trim(v.source, '/');
    TrimIsTrimmed(v.source, '/');
    TrimIsTrimmed(v.subDir, '/');
    assert ("//" + s)[1..] == "/" + s && ("/" + s)[1..] == s;
    assert TrimLeft("//" + s, '/') == TrimLeft("/" + s, '/') == TrimLeft(s, '/') == s;
    TrimFixed(s, '/');
    TrimFixed(Trim(v.subDir, '/'), '/');
  }

  /** IDs by their parts, none of which contains '#': one part is refused; the second is the subdirectory, the third the
      uuid, the fourth the policy, and any more are ignored. */
  lemma DecodeParts(parts: seq<string>)
    requires |parts| >= 1 && forall i :: 0 <= i < |parts| ==> Free(parts[i], {'#'})
    ensures var uuid := if |parts| >= 3 then parts[2] else "";
            var r := DecodeId(Join(parts, '#'));
            if |parts| == 1 || !ValidPath(parts[1]) || !ValidPath(uuid) then r.Err?
            else
              && r.Ok? && r.value.id == Join(parts, '#')
              && r.value.source == (if "//" <= parts[0] then parts[0] else "//" + parts[0])
              && r.value.subDir == parts[1] && r.value.uuid == uuid
              && r.value.onDelete == if |parts| >= 4 then parts[3] else ""
  {
    SplitJoin(parts, '#');
  }

  /** What newSMBVolume accepts. */
  lemma AcceptedIff(name: string, p: Params, defaultPolicy: string)
    ensures NewVolume(name, p, defaultPolicy).Ok? <==>
            && p.source != ""
            && (p.onDelete == "" || EqualFold(p.onDelete, "delete") ||
                EqualFold(p.onDelete, "retain") || EqualFold(p.onDelete, "archive"))
            && ValidPath(p.source) && ValidPath(if p.subDir == "" then name else p.resolved)
  {
    OnlyEmptyFoldsToEmpty(p.onDelete);
  }

  lemma OnlyEmptyFoldsToEmpty(s: string)
    ensures EqualFold(s, "") <==> s == ""
  {
    assert |ToLower(s)| == |s| && |ToLower("")| == 0;
  }

  // ---------------------------------------------------------------- names and IDs

  /** A volume name the provisioner gives: one path element. */
  predicate ProperName(name: string) {
    name != "" && name != "." && name != ".." && Free(name, {'/', '\\', '#'})
  }

  lemma ProperNamesAreValid(name: string)
    requires ProperName(name)
    ensures ValidPath(name) && Elements(name) == [name] && ".." !in Split(name, {'/'}) && Trim(name, '/') == name
  {
    SplitFree(name, PathSeparators);
    SplitFree(name, {'/'});
    assert [name][1..] == [];
    assert NonEmpty([name]) == [name] + NonEmpty([]);
    assert Plain([name]) == [name] + Plain([]);
    TrimFixed(name, '/');
  }

  /** The request's own strings contain no ID separator. */
  predicate HashFreeParams(p: Params) {
    Free(p.source, {'#'}) && Free(p.resolved, {'#'})
  }

  lemma CreatedFields(name: string, p: Params, defaultPolicy: string)
    requires NewVolume(name, p, defaultPolicy).Ok?
    ensures var v := NewVolume(name, p, defaultPolicy).value;
            && v.id == EncodeId(v) && v.source == p.source && ValidPath(v.subDir)
            && v.subDir == (if p.subDir == "" then name else p.resolved)
            && v.uuid == (if p.subDir == "" then "" else name)
            && v.onDelete == if p.onDelete != "" then p.onDelete else defaultPolicy
  {
  }

  /** The ID of every accepted request: source and subdirectory without slashes at their ends, the name if a
      subdirectory was given, and the request's policy or else the default's, if that is to retain or to archive. */
  lemma CreatedIdIs(name: string, p: Params, defaultPolicy: string)
    requires NewVolume(name, p, defaultPolicy).Ok?
    ensures var word := if p.onDelete != "" then p.onDelete else defaultPolicy;
            var recorded := if EqualFold(word, "retain") || EqualFold(word, "archive") then word else "";
            NewVolume(name, p, defaultPolicy).value.id ==
            Trim(p.source, '/') + ['#'] + (Trim(if p.subDir == "" then name else p.resolved, '/') + ['#'] +
            ((if p.subDir == "" then "" else name) + ['#'] + recorded))
  {
    var v := NewVolume(name, p, defaultPolicy).value;
    CreatedFields(name, p, defaultPolicy);
    IdIs(v);
  }

  lemma IdIs(v: Volume)
    ensures EncodeId(v) ==
            Trim(v.source, '/') + ['#'] + (Trim(v.subDir, '/') + ['#'] + (v.uuid + ['#'] + Recorded(v.onDelete)))
  {
    var s, d, u, o := Trim(v.source, '/'), Trim(v.subDir, '/'), v.uuid, Recorded(v.onDelete);
    assert [s, d, u, o][1..] == [d, u, o] && [d, u, o][1..] == [u, o] && [u, o][1..] == [o];
    assert Join([u, o], '#') == u + ['#'] + o;
    assert Join([d, u, o], '#') == d + ['#'] + Join([u, o], '#');
    assert EncodeId(v) == s + ['#'] + Join([d, u, o], '#');
  }

  /** What newSMBVolume makes of a proper name. */
  lemma Created(name: string, p: Params, defaultPolicy: string)
    requires ProperName(name) && NewVolume(name, p, defaultPolicy).Ok?
    ensures var v := NewVolume(name, p, defaultPolicy).value;
            && v.id == EncodeId(v) && MountDir(v) == name && ValidVolume(v)
            && (HashFreeParams(p) ==> HashFree(v))
            && (v.uuid == name || (v.uuid == "" && v.subDir == name))
            && v.onDelete == if p.onDelete != "" then p.onDelete else defaultPolicy
  {
    CreatedFields(name, p, defaultPolicy);
    ProperVolume(name, p, NewVolume(name, p, defaultPolicy).value);
  }

  lemma ProperVolume(name: string, p: Params, v: Volume)
    requires ProperName(name) && v.source == p.source && ValidPath(v.subDir)
    requires v.subDir == (if p.subDir == "" then name else p.resolved)
             && v.uuid == (if p.subDir == "" then "" else name)
    ensures MountDir(v) == name && ValidVolume(v) && (HashFreeParams(p) ==> HashFree(v))
  {
    ProperNamesAreValid(name);
    SplitFree("", PathSeparators);
    assert ValidPath("");
  }

  /** Two accepted requests with different names get the same ID exactly when neither gives a subdirectory, the names
      differ only in slashes at their ends, and source and recorded policy come to the same. */
  lemma SameIdIff(n1: string, p1: Params, d1: string, n2: string, p2: Params, d2: string)
    requires n1 != "" && n2 != "" && n1 != n2 && NewVolume(n1, p1, d1).Ok? && NewVolume(n2, p2, d2).Ok?
    requires HashFree(NewVolume(n1, p1, d1).value) && HashFree(NewVolume(n2, p2, d2).value)
    ensures var v1, v2 := NewVolume(n1, p1, d1).value, NewVolume(n2, p2, d2).value;
            v1.id == v2.id <==>
            && p1.subDir == "" && p2.subDir == "" && Trim(n1, '/') == Trim(n2, '/')
            && Trim(p1.source, '/') == Trim(p2.source, '/') && Recorded(v1.onDelete) == Recorded(v2.onDelete)
  {
    CreatedFields(n1, p1, d1);
    CreatedFields(n2, p2, d2);
    SameSegments(NewVolume(n1, p1, d1).value, NewVolume(n2, p2, d2).value);
  }

  /** The ID determines the parts it is made of. */
  lemma SameSegments(v1: Volume, v2: Volume)
    requires HashFree(v1) && HashFree(v2)
    ensures EncodeId(v1) == EncodeId(v2) <==>
            && Trim(v1.source, '/') == Trim(v2.source, '/') && Trim(v1.subDir, '/') == Trim(v2.subDir, '/')
            && v1.uuid == v2.uuid && Recorded(v1.onDelete) == Recorded(v2.onDelete)
  {
    DecodeOfHashFree(v1);
    DecodeOfHashFree(v2);
    var a, b := Split(EncodeId(v1), {'#'}), Split(EncodeId(v2), {'#'});
    assert EncodeId(v1) == EncodeId(v2) ==> a[0] == b[0] && a[1] == b[1] && a[2] == b[2] && a[3] == b[3];
  }

  /** Two volumes with different names never get the same ID, whatever parameters they were created with. */
  lemma DistinctNamesDistinctIds(n1: string, p1: Params, d1: string, n2: string, p2: Params, d2: string)
    requires ProperName(n1) && ProperName(n2) && n1 != n2 && HashFreeParams(p1) && HashFreeParams(p2)
    requires NewVolume(n1, p1, d1).Ok? && NewVolume(n2, p2, d2).Ok?
    ensures NewVolume(n1, p1, d1).value.id != NewVolume(n2, p2, d2).value.id
  {
    Created(n1, p1, d1);
    Created(n2, p2, d2);
    ProperNamesAreValid(n1);
    ProperNamesAreValid(n2);
    SameIdIff(n1, p1, d1, n2, p2, d2);
  }

  // ---------------------------------------------------------------- paths

  function MountDir(v: Volume): string {
    if v.uuid == "" then v.subDir else v.uuid
  }

  /** getInternalMountPath */
  function InternalMountPath(workDir: string, v: Volume): string {
    JoinPath(workDir, MountDir(v))
  }

  /** getInternalVolumePath */
  function InternalVolumePath(workDir: string, v: Volume): string {
    JoinPath(InternalMountPath(workDir, v), v.subDir)
  }

  predicate ValidVolume(v: Volume) {
    ValidPath(v.subDir) && ValidPath(v.uuid)
  }

  lemma InternalSegs(workDir: string, v: Volume)
    requires workDir != "" && ValidVolume(v)
    ensures InternalMountPath(workDir, v) == Render(Rooted(workDir), Segs(workDir) + Elements(MountDir(v)))
    ensures InternalVolumePath(workDir, v) ==
            Render(Rooted(workDir), Segs(workDir) + Elements(MountDir(v)) + Elements(v.subDir))
    ensures Segs(InternalMountPath(workDir, v)) == Segs(workDir) + Elements(MountDir(v))
    ensures Segs(InternalVolumePath(workDir, v)) == Segs(workDir) + Elements(MountDir(v)) + Elements(v.subDir)
    ensures Rooted(InternalVolumePath(workDir, v)) == Rooted(workDir)
  {
    ValidHasNoDotDot(v.subDir);
    ValidHasNoDotDot(MountDir(v));
    JoinAppends(workDir, MountDir(v));
    JoinAppends(InternalMountPath(workDir, v), v.subDir);
  }

  /** Every ID the decoder accepts leads to paths at or below the working directory. */
  lemma DecodedStaysBelow(workDir: string, id: string)
    requires workDir != "" && DecodeId(id).Ok?
    ensures var v := DecodeId(id).value;
            && Segs(workDir) <= Segs(InternalMountPath(workDir, v)) <= Segs(InternalVolumePath(workDir, v))
            && Rooted(InternalVolumePath(workDir, v)) == Rooted(workDir)
  {
    InternalSegs(workDir, DecodeId(id).value);
  }

  lemma CanonicalPaths(workDir: string, v: Volume)
    requires workDir != "" && ValidVolume(v)
    ensures InternalMountPath(workDir, Canonical(v)) == InternalMountPath(workDir, v)
    ensures InternalVolumePath(workDir, Canonical(v)) == InternalVolumePath(workDir, v)
  {
    InternalSegs(workDir, v);
    TrimKeepsValid(v.subDir);
    InternalSegs(workDir, Canonical(v));
    ElementsOfTrim(v.subDir);
  }

  /** What the driver can make of the ID again: no field contains the separator, and the uuid, which is not checked
      at creation, has no ".." element. */
  predicate Recoverable(v: Volume) {
    HashFree(v) && ValidPath(v.uuid)
  }

  /** For every accepted request: the ID decodes to the volume exactly when the volume is recoverable, and then
      DeleteVolume recomputes the very directories CreateVolume used. */
  lemma DeleteFindsCreatedDirectory(workDir: string, name: string, p: Params, defaultPolicy: string)
    requires workDir != "" && NewVolume(name, p, defaultPolicy).Ok?
    ensures var v := NewVolume(name, p, defaultPolicy).value;
            && (DecodeId(v.id) == Ok(Canonical(v)) <==> Recoverable(v))
            && (Recoverable(v) ==>
                  && InternalMountPath(workDir, DecodeId(v.id).value) == InternalMountPath(workDir, v)
                  && InternalVolumePath(workDir, DecodeId(v.id).value) == InternalVolumePath(workDir, v))
  {
    var v := NewVolume(name, p, defaultPolicy).value;
    CreatedFields(name, p, defaultPolicy);
    DecodeEncode(v);
    if Recoverable(v) {
      CanonicalPaths(workDir, v);
    }
  }

  /** An ID without stray separators decodes to nothing at all exactly when the uuid has a ".." element. */
  lemma UndecodableIff(name: string, p: Params, defaultPolicy: string)
    requires NewVolume(name, p, defaultPolicy).Ok? && HashFree(NewVolume(name, p, defaultPolicy).value)
    ensures var v := NewVolume(name, p, defaultPolicy).value;
            DecodeId(v.id).Err? <==> p.subDir != "" && !ValidPath(name)
  {
    var v := NewVolume(name, p, defaultPolicy).value;
    CreatedFields(name, p, defaultPolicy);
    DecodeOfHashFree(v);
    TrimKeepsValid(v.subDir);
    SplitFree("", PathSeparators);
    assert ValidPath("");
  }

  /** The internal mount directories of two volumes whose names have no ".." element lie inside each other exactly as
      their names do, read as paths. */
  lemma MountDirectoriesNestedIff(workDir: string, n1: string, p1: Params, d1: string, n2: string, p2: Params,
      d2: string)
    requires workDir != "" && n1 != "" && n2 != "" && ValidPath(n1) && ValidPath(n2)
    requires NewVolume(n1, p1, d1).Ok? && NewVolume(n2, p2, d2).Ok?
    ensures var a := Segs(InternalMountPath(workDir, NewVolume(n1, p1, d1).value));
            var b := Segs(InternalMountPath(workDir, NewVolume(n2, p2, d2).value));
            a <= b <==> Elements(n1) <= Elements(n2)
  {
    CreatedFields(n1, p1, d1);
    CreatedFields(n2, p2, d2);
    ValidHasNoDotDot(n1);
    ValidHasNoDotDot(n2);
    JoinAppends(workDir, n1);
    JoinAppends(workDir, n2);
    PrefixCancels(Segs(workDir), Elements(n1), Elements(n2));
  }

  /** Volumes with different names never share an internal mount directory, and neither lies inside the other. */
  lemma MountDirectoriesApart(workDir: string, n1: string, p1: Params, d1: string, n2: string, p2: Params, d2: string)
    requires workDir != "" && ProperName(n1) && ProperName(n2) && n1 != n2
    requires NewVolume(n1, p1, d1).Ok? && NewVolume(n2, p2, d2).Ok?
    ensures var a := Segs(InternalMountPath(workDir, NewVolume(n1, p1, d1).value));
            var b := Segs(InternalMountPath(workDir, NewVolume(n2, p2, d2).value));
            !(a <= b) && !(b <= a)
  {
    ProperNamesAreValid(n1);
    ProperNamesAreValid(n2);
    MountDirectoriesNestedIff(workDir, n1, p1, d1, n2, p2, d2);
    MountDirectoriesNestedIff(workDir, n2, p2, d2, n1, p1, d1);
    assert [n1][0] == n1 && [n2][0] == n2;
  }

  // ---------------------------------------------------------------- staying below the working directory

  /** Mount and volume path lie at or below the working directory. */
  predicate StaysBelow(workDir: string, v: Volume) {
    Segs(workDir) <= Segs(InternalMountPath(workDir, v)) && Segs(workDir) <= Segs(InternalVolumePath(workDir, v))
  }

  lemma PathsWalk(workDir: string, v: Volume)
    requires Rooted(workDir) && ValidPath(v.subDir)
    ensures Segs(InternalMountPath(workDir, v)) == Walk(true, Segs(workDir), Split(MountDir(v), {'/'}))
    ensures Segs(InternalMountPath(workDir, v)) <= Segs(InternalVolumePath(workDir, v))
  {
    JoinWalks(workDir, MountDir(v));
    ValidHasNoDotDot(v.subDir);
    JoinAppends(InternalMountPath(workDir, v), v.subDir);
  }

  function Repeated(c: char, n: nat): (s: string)
    ensures |s| == n && forall i :: 0 <= i < n ==> s[i] == c
  {
    if n == 0 then "" else [c] + Repeated(c, n - 1)
  }

  lemma RootedNameSegs(t: string)
    requires ProperName(t)
    ensures Rooted(['/'] + t) && Segs(['/'] + t) == [t]
  {
    ProperNamesAreValid(t);
    SplitAppend("", '/', t, {'/'});
    assert "" + ['/'] + t == ['/'] + t;
    SplitFree("", {'/'});
    SplitFree(t, {'/'});
    WalkPlain(true, [], ["", t]);
    assert ["", t][1..] == [t] && [t][1..] == [];
    assert Plain(["", t]) == [] + Plain([t]) && Plain([t]) == [t] + Plain([]);
  }

  lemma StaysUnlessClimbing(workDir: string, v: Volume)
    requires Rooted(workDir) && ValidPath(v.subDir) && !Climbs(Split(MountDir(v), {'/'}), 0)
    ensures StaysBelow(workDir, v)
  {
    PathsWalk(workDir, v);
    SegsNormal(workDir);
    WalkStaysBelow(Segs(workDir), Segs(workDir), Split(MountDir(v), {'/'}));
  }

  lemma ClimbingLeaves(v: Volume) returns (workDir: string)
    requires ValidPath(v.subDir) && Climbs(Split(MountDir(v), {'/'}), 0)
    ensures Rooted(workDir) && !StaysBelow(workDir, v)
  {
    var x := NewElement(MountDir(v));
    workDir := ['/'] + x;
    RootedNameSegs(x);
    LeavesNewElement(x, Split(MountDir(v), {'/'}));
    PathsWalk(workDir, v);
  }

  /** An accepted request's paths stay below every absolute working directory exactly when its mount directory, read
      element by element, never climbs out of it; only a name given beside a subdirectory can. */
  lemma AcceptedStaysBelowIff(name: string, p: Params, defaultPolicy: string)
    requires NewVolume(name, p, defaultPolicy).Ok?
    ensures var v := NewVolume(name, p, defaultPolicy).value;
            && ((forall workDir :: Rooted(workDir) ==> StaysBelow(workDir, v)) <==>
               !Climbs(Split(MountDir(v), {'/'}), 0))
            && (Climbs(Split(MountDir(v), {'/'}), 0) ==> p.subDir != "" && MountDir(v) == name && !ValidPath(name))
  {
    var v := NewVolume(name, p, defaultPolicy).value;
    CreatedFields(name, p, defaultPolicy);
    if ValidPath(MountDir(v)) {
      ValidHasNoDotDot(MountDir(v));
      PlainNeverClimbs(Split(MountDir(v), {'/'}), 0);
    }
    if Climbs(Split(MountDir(v), {'/'}), 0) {
      var workDir := ClimbingLeaves(v);
    } else {
      forall workDir | Rooted(workDir)
        ensures StaysBelow(workDir, v)
      {
        StaysUnlessClimbing(workDir, v);
      }
    }
  }

  /** An element that the path does not have. */
  lemma NewElement(path: string) returns (x: string)
    ensures ProperName(x) && x !in Split(path, {'/'})
  {
    x := Repeated('w', |path| + 3);
    assert x[0] == 'w';
    if x in Split(path, {'/'}) {
      PieceIsShorter(path, {'/'}, x);
    }
  }

  lemma LeavesNewElement(x: string, parts: seq<string>)
    requires ProperName(x) && x !in parts && Climbs(parts, 0)
    ensures !([x] <= Walk(true, [x], parts))
  {
    assert [x] + [] == [x];
    WalkLeaves(x, [], parts);
    NotIn(x, Walk(true, [x], parts));
  }

  lemma NotIn(x: string, path: seq<string>)
    requires x !in path
    ensures !([x] <= path)
  {
    assert path != [] ==> path[0] in path;
  }

  /** Names that differ only in a slash at the end do share an ID. */
  lemma SlashNamesShareId(name: string, source: string, defaultPolicy: string)
    requires ProperName(name) && ProperName(source)
    ensures var p := Params(source, "", "", "");
            && NewVolume(name, p, defaultPolicy).Ok? && NewVolume(name + "/", p, defaultPolicy).Ok?
            && NewVolume(name, p, defaultPolicy).value.id == NewVolume(name + "/", p, defaultPolicy).value.id
  {
    var p := Params(source, "", "", "");
    ProperNamesAreValid(name);
    ProperNamesAreValid(source);
    TrailingSlash(name);
    PlainRequest(name, source, defaultPolicy);
    PlainRequest(name + "/", source, defaultPolicy);
    SameIdIff(name, p, defaultPolicy, name + "/", p, defaultPolicy);
  }

  lemma TrailingSlash(name: string)
    requires ProperName(name)
    ensures Trim(name + "/", '/') == name && ValidPath(name + "/")
  {
    var other := name + "/";
    ProperNamesAreValid(name);
    assert other[..|other| - 1] == name && other[|other| - 1] == '/' && other[0] == name[0];
    assert TrimRight(other, '/') == TrimRight(name, '/');
    TrimKeepsValid(other);
  }

  lemma PlainRequest(name: string, source: string, defaultPolicy: string)
    requires name != "" && ValidPath(name) && Free(name, {'#'}) && ProperName(source)
    ensures NewVolume(name, Params(source, "", "", ""), defaultPolicy).Ok?
    ensures HashFree(NewVolume(name, Params(source, "", "", ""), defaultPolicy).value)
  {
    ProperNamesAreValid(source);
    assert SupportedOnDelete("");
  }

  /** What the controller accepts also passes the check the node makes on the joined path. */
  lemma AcceptedPassesNodeCheck(name: string, p: Params, defaultPolicy: string)
    requires NewVolume(name, p, defaultPolicy).Ok?
    ensures var v := NewVolume(name, p, defaultPolicy).value;
            ValidPath(v.source) && ValidPath(TrimRight(v.source, '/') + "/" + v.subDir)
  {
    var v := NewVolume(name, p, defaultPolicy).value;
    JoinedPathValid(v.source, v.subDir);
  }

  // ---------------------------------------------------------------- the on-delete policy

  /** The policy DeleteVolume acts on. */
  function EffectivePolicy(v: Volume, defaultPolicy: string): Policy {
    PolicyOf(if v.onDelete == "" then defaultPolicy else v.onDelete)
  }

  lemma FoldedWord(s: string, word: string)
    requires EqualFold(s, word) && word != "" && !('A' <= word[0] <= 'Z')
    ensures |s| == |word| && LowerChar(s[0]) == word[0]
  {
    assert ToLower(s)[0] == LowerChar(s[0]) && ToLower(word)[0] == LowerChar(word[0]);
  }

  lemma DeleteIsDelete(s: string)
    requires SupportedOnDelete(s)
    ensures PolicyOf(s).Delete? <==> s == "" || EqualFold(s, "delete")
  {
    if EqualFold(s, "delete") {
      FoldedWord(s, "delete");
    }
    if EqualFold(s, "retain") {
      FoldedWord(s, "retain");
    }
    if EqualFold(s, "archive") {
      FoldedWord(s, "archive");
    }
    if EqualFold(s, "") {
      assert |ToLower(s)| == |ToLower("")|;
    }
  }

  /** For every accepted request whose volume is recoverable, the policy chosen at creation survives the trip through
      the ID exactly when it is not an explicit "delete" given against a retain or archive default, which the ID
      does not record. */
  lemma PolicySurvives(name: string, p: Params, defaultPolicy: string)
    requires NewVolume(name, p, defaultPolicy).Ok? && Recoverable(NewVolume(name, p, defaultPolicy).value)
    ensures var v := NewVolume(name, p, defaultPolicy).value;
            && DecodeId(v.id).Ok?
            && (EffectivePolicy(DecodeId(v.id).value, defaultPolicy) == PolicyOf(v.onDelete)
                <==> !(EqualFold(p.onDelete, "delete") && !PolicyOf(defaultPolicy).Delete?))
  {
    CreatedFields(name, p, defaultPolicy);
    DecodeEncode(NewVolume(name, p, defaultPolicy).value);
    RecordedPolicy(p.onDelete, defaultPolicy);
  }

  lemma RecordedPolicy(onDelete: string, defaultPolicy: string)
    requires SupportedOnDelete(onDelete)
    ensures var chosen := if onDelete != "" then onDelete else defaultPolicy;
            var effective := if Recorded(chosen) == "" then defaultPolicy else Recorded(chosen);
            PolicyOf(effective) == PolicyOf(chosen) <==>
                !(EqualFold(onDelete, "delete") && !PolicyOf(defaultPolicy).Delete?)
  {
    DeleteIsDelete(onDelete);
    SplitFree("", {'#'});
    assert SupportedOnDelete("");
    DeleteIsDelete("");
    if EqualFold(onDelete, "delete") {
      FoldedWord(onDelete, "delete");
    }
  }

  /** The word that decides at deletion: what the request says, unless it says nothing or "delete"; then the default. */
  function DecidingWord(onDelete: string, defaultPolicy: string): string {
    if onDelete == "" || EqualFold(onDelete, "delete") then defaultPolicy else onDelete
  }

  lemma WordsApart(s: string)
    ensures !(EqualFold(s, "retain") && EqualFold(s, "archive"))
    ensures !(EqualFold(s, "retain") && EqualFold(s, "delete")) && !(EqualFold(s, "archive") && EqualFold(s, "delete"))
    ensures EqualFold(s, "retain") || EqualFold(s, "archive") ==> s != ""
  {
    if EqualFold(s, "retain") {
      FoldedWord(s, "retain");
    }
    if EqualFold(s, "archive") {
      FoldedWord(s, "archive");
    }
    if EqualFold(s, "delete") {
      FoldedWord(s, "delete");
    }
  }

  /** The policy DeleteVolume acts on, for every accepted request whose volume is recoverable. */
  lemma PolicyIsTheWord(name: string, p: Params, defaultPolicy: string)
    requires NewVolume(name, p, defaultPolicy).Ok? && Recoverable(NewVolume(name, p, defaultPolicy).value)
    ensures var v := NewVolume(name, p, defaultPolicy).value;
            var word := DecidingWord(p.onDelete, defaultPolicy);
            && DecodeId(v.id) == Ok(Canonical(v))
            && (EffectivePolicy(Canonical(v), defaultPolicy).Retain? <==> EqualFold(word, "retain"))
            && (EffectivePolicy(Canonical(v), defaultPolicy).Archive? <==> EqualFold(word, "archive"))
  {
    CreatedFields(name, p, defaultPolicy);
    DecodeEncode(NewVolume(name, p, defaultPolicy).value);
    DeleteIsDelete(p.onDelete);
    WordsApart(p.onDelete);
    WordsApart(defaultPolicy);
  }
}
