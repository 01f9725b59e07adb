/** The two Windows mounters, one call at a time and without errors: the one that keeps reference files
    (pkg/mounter/safe_mounter_windows.go) and the one that scans the driver's directory for other links
    (pkg/mounter/safe_mounter_host_process_windows.go, pkg/os/smb/smb.go). Both keep one link per staged volume. */
module Mounters {
  import opened GoStrings
  import opened SmbShare
  import opened Wrappers

  type Vol = string

  predicate IsSpace(c: char) {
    c == ' ' || c == '\t' || c == '\n' || c == '\r'
  }

  /** strings.TrimSpace */
  function TrimSpace(s: string): string {
    if s == "" then ""
    else if IsSpace(s[0]) then TrimSpace(s[1..])
    else if IsSpace(s[|s| - 1]) then TrimSpace(s[..|s| - 1])
    else s
  }

  // ---------------------------------------------------------------- reference files

  datatype RefState = RefState(links: map<Vol, string>, refs: map<string, set<string>>, mappings: set<string>)

  function RefsOf(s: RefState, share: string): set<string> {
    if share in s.refs then s.refs[share] else {}
  }

  function RefMount(s: RefState, v: Vol, source: string): RefState {
    var path := TrimBackslash(ToBackslashes(source));
    match Root(path)
    case Err => s
    case Ok(share) => RefAdd(s, v, path, share)
  }

  function RefAdd(s: RefState, v: Vol, path: string, share: string): RefState {
    RefState(s.links[v := path], s.refs[share := RefsOf(s, share) + {ToLower(v)}], s.mappings + {share})
  }

  function RefDrop(s: RefState, v: Vol, share: string): (RefState, bool) {
    var left := RefsOf(s, share) - {ToLower(v)};
    var mappings := if left == {} then s.mappings - {share} else s.mappings;
    (RefState(s.links - {v}, s.refs[share := left], mappings), left == {})
  }

  /** The new state, and whether the share's mapping was removed. */
  function RefUnmount(s: RefState, v: Vol): (RefState, bool)
    requires v in s.links
  {
    match UnmountShare(s.links[v])
    case Err => (s, false)
    case Ok(share) => RefDrop(s, v, share)
  }

  class CsiProxyMounter {
    var links: map<Vol, string>
    var refs: map<string, set<string>>
    var mappings: set<string>

    ghost function Model(): RefState
      reads this
    {
      RefState(links, refs, mappings)
    }

    constructor ()
      ensures Model() == RefState(map[], map[], {})
    {
      links, refs, mappings := map[], map[], {};
    }

    method SmbMount(v: Vol, source: string)
      modifies this
      ensures Model() == RefMount(old(Model()), v, source)
    {
      var path := TrimBackslash(ToBackslashes(source));
      var share := GetRootMappingPath(path);
      if share.Err? {
        return;
      }
      mappings := mappings + {share.value};
      links := links[v := path];
      var files := if share.value in refs then refs[share.value] else {};
      refs := refs[share.value := files + {ToLower(v)}];
    }

    method SmbUnmount(v: Vol) returns (removed: bool)
      requires v in links
      modifies this
      ensures (Model(), removed) == RefUnmount(old(Model()), v)
    {
      var share := GetRootMappingPath(TrimBackslash(links[v]));
      if share.Err? {
        return false;
      }
      var files := if share.value in refs then refs[share.value] else {};
      files := files - {ToLower(v)};
      refs := refs[share.value := files];
      removed := |files| == 0;
      if removed {
        mappings := mappings - {share.value};
      }
      links := links - {v};
    }
  }

  // ---------------------------------------------------------------- scanning for other links

  datatype ScanState = ScanState(links: map<Vol, string>, mappings: set<string>)

  /** Another staged volume's link leads to the same remote path. */
  predicate HasDuplicate(links: map<Vol, string>, v: Vol, remote: string) {
    exists w :: w in links && !EqualFold(w, v) && TrimSpace(links[w]) == remote
  }

  /** `valid` says whether the remote path answers; a mapping that does not is removed and made again. */
  function ScanMount(s: ScanState, v: Vol, source: string, valid: bool): ScanState {
    var remote := ToBackslashes(source);
    var kept := if remote in s.mappings && !valid then s.mappings - {TrimBackslash(remote)} else s.mappings;
    ScanState(s.links[v := remote], kept + {remote})
  }

  function ScanUnmount(s: ScanState, v: Vol): (ScanState, bool)
    requires v in s.links
  {
    var remote := TrimSpace(s.links[v]);
    var removes := !HasDuplicate(s.links, v, remote);
    (ScanState(s.links - {v}, if removes then s.mappings - {TrimBackslash(remote)} else s.mappings), removes)
  }

  class WinMounter {
    var links: map<Vol, string>
    var mappings: set<string>

    ghost function Model(): ScanState
      reads this
    {
      ScanState(links, mappings)
    }

    constructor ()
      ensures Model() == ScanState(map[], {})
    {
      links, mappings := map[], {};
    }

    /** CheckForDuplicateSMBMounts: looks at the staged volumes in turn, skipping the one being unmounted, and stops
        at the first that leads to the same remote path. */
    method CheckForDuplicateSmbMounts(v: Vol, remote: string) returns (found: bool)
      ensures found <==> HasDuplicate(links, v, remote)
    {
      var left := links.Keys;
      while left != {}
        invariant left <= links.Keys
        invariant forall w :: w in links && w !in left ==> EqualFold(w, v) || TrimSpace(links[w]) != remote
        decreases left
      {
        var w :| w in left;
        if !EqualFold(w, v) && TrimSpace(links[w]) == remote {
          return true;
        }
        left := left - {w};
      }
      return false;
    }

    method SmbMount(v: Vol, source: string, valid: bool)
      modifies this
      ensures Model() == ScanMount(old(Model()), v, source, valid)
    {
      var remote := ToBackslashes(source);
      var isMapped := remote in mappings;
      if isMapped && !valid {
        mappings := mappings - {TrimBackslash(remote)};
        isMapped := false;
      }
      if !isMapped {
        mappings := mappings + {remote};
      }
      links := links[v := remote];
    }

    method SmbUnmount(v: Vol) returns (removed: bool)
      requires v in links
      modifies this
      ensures (Model(), removed) == ScanUnmount(old(Model()), v)
    {
      var remote := TrimSpace(links[v]);
      var found := CheckForDuplicateSmbMounts(v, remote);
      if !found {
        mappings := mappings - {TrimBackslash(remote)};
      }
      links := links - {v};
      removed := !found;
    }
  }

  // ---------------------------------------------------------------- the same decisions

  /** `valid` is what the scanning mounter learns about an existing mapping. */
  datatype Event = Stage(v: Vol, source: string, valid: bool) | Unstage(v: Vol)

  /** Every source has a host and a share, so that no mount fails on it. */
  predicate Proper(sources: set<string>) {
    forall s :: s in sources ==> MountShare(s).Ok?
  }

  /** What the scanning mounter compares. */
  function Remote(source: string): string {
    TrimSpace(ToBackslashes(source))
  }

  /** Two sources lead to the same remote path exactly when they are on the same share. */
  ghost predicate SpelledAlike(sources: set<string>) {
    forall s, t :: s in sources && t in sources ==> (MountShare(s) == MountShare(t) <==> Remote(s) == Remote(t))
  }

  /** What the mounters make of a source: the share it is counted under and the two spellings of its link. */
  datatype Item = Item(share: string, path: string, link: string)

  function ItemOf(source: string): Item
    requires MountShare(source).Ok?
  {
    Item(MountShare(source).value, TrimBackslash(ToBackslashes(source)), ToBackslashes(source))
  }

  /** Stages of volumes not yet staged, whose names are distinct up to case, and unstages of staged ones. */
  ghost predicate Possible(staged: map<Vol, Item>, e: Event, sources: set<string>) {
    match e
    case Stage(v, source, _) => source in sources && forall w :: w in staged ==> !EqualFold(w, v)
    case Unstage(v) => v in staged
  }

  ghost function Staged(staged: map<Vol, Item>, e: Event, sources: set<string>): map<Vol, Item>
    requires Proper(sources) && Possible(staged, e, sources)
  {
    match e
    case Stage(v, source, _) => staged[v := ItemOf(source)]
    case Unstage(v) => staged - {v}
  }

  ghost predicate History(staged: map<Vol, Item>, events: seq<Event>, sources: set<string>)
    requires Proper(sources)
    decreases events
  {
    || events == []
    || (Possible(staged, events[0], sources) && History(Staged(staged, events[0], sources), events[1..], sources))
  }

  /** Both mounters' states stand for the same staged volumes. */
  ghost predicate Agree(staged: map<Vol, Item>, r: RefState, s: ScanState) {
    && r.links.Keys == staged.Keys && s.links.Keys == staged.Keys
    && (forall v :: v in staged ==> r.links[v] == staged[v].path && s.links[v] == staged[v].link)
    && (forall share, x :: x in RefsOf(r, share) <==> Referenced(staged, share, x))
  }

  ghost predicate Referenced(staged: map<Vol, Item>, share: string, x: string) {
    exists v :: v in staged && ToLower(v) == x && staged[v].share == share
  }

  /** The staged volumes differ in more than case. */
  ghost predicate Distinct(staged: map<Vol, Item>) {
    forall v, w :: v in staged && w in staged && ToLower(v) == ToLower(w) ==> v == w
  }

  /** Two links lead to the same remote path exactly when their shares are equal. */
  ghost predicate Matching(staged: map<Vol, Item>) {
    forall v, w :: v in staged && w in staged ==>
      (staged[v].share == staged[w].share <==> TrimSpace(staged[v].link) == TrimSpace(staged[w].link))
  }

  ghost predicate WellSpelled(staged: map<Vol, Item>) {
    forall v :: v in staged ==> UnmountShare(staged[v].path) == Ok(staged[v].share)
  }

  ghost predicate FromSources(staged: map<Vol, Item>, sources: set<string>)
    requires Proper(sources)
  {
    forall v :: v in staged ==> exists source :: source in sources && staged[v] == ItemOf(source)
  }

  lemma RefShareIs(source: string)
    ensures UnmountShare(TrimBackslash(ToBackslashes(source))) == MountShare(source)
  {
    FieldsTrimBackslash(TrimBackslash(ToBackslashes(source)));
    RootDependsOnPieces(TrimBackslash(TrimBackslash(ToBackslashes(source))), TrimBackslash(ToBackslashes(source)));
  }

  lemma SourcesAreProper(staged: map<Vol, Item>, sources: set<string>)
    requires Proper(sources) && FromSources(staged, sources)
    ensures WellSpelled(staged)
  {
    forall v | v in staged
      ensures UnmountShare(staged[v].path) == Ok(staged[v].share)
    {
      var a :| a in sources && staged[v] == ItemOf(a);
      RefShareIs(a);
    }
  }

  lemma ItemsMatch(a: string, b: string, sources: set<string>)
    requires Proper(sources) && SpelledAlike(sources) && a in sources && b in sources
    ensures ItemOf(a).share == ItemOf(b).share <==> TrimSpace(ItemOf(a).link) == TrimSpace(ItemOf(b).link)
  {
    assert MountShare(a) == MountShare(b) <==> Remote(a) == Remote(b);
  }

  lemma PairMatches(x: Item, y: Item, sources: set<string>)
    requires Proper(sources) && SpelledAlike(sources)
    requires exists a :: a in sources && x == ItemOf(a)
    requires exists b :: b in sources && y == ItemOf(b)
    ensures x.share == y.share <==> TrimSpace(x.link) == TrimSpace(y.link)
  {
    var a :| a in sources && x == ItemOf(a);
    var b :| b in sources && y == ItemOf(b);
    ItemsMatch(a, b, sources);
  }

  lemma SourcesMatch(staged: map<Vol, Item>, sources: set<string>)
    requires Proper(sources) && SpelledAlike(sources) && FromSources(staged, sources)
    ensures Matching(staged)
  {
    forall v, w | v in staged && w in staged
      ensures staged[v].share == staged[w].share <==> TrimSpace(staged[v].link) == TrimSpace(staged[w].link)
    {
      PairMatches(staged[v], staged[w], sources);
    }
  }

  lemma AddAgrees(staged: map<Vol, Item>, r: RefState, s: ScanState, v: Vol, item: Item, mappings: set<string>)
    requires Agree(staged, r, s) && v !in staged
    ensures Agree(staged[v := item], RefAdd(r, v, item.path, item.share), ScanState(s.links[v := item.link], mappings))
  {
    var staged', r' := staged[v := item], RefAdd(r, v, item.path, item.share);
    forall share, x
      ensures x in RefsOf(r', share) <==> Referenced(staged', share, x)
    {
      if Referenced(staged, share, x) {
        var w :| w in staged && ToLower(w) == x && staged[w].share == share;
        assert w in staged' && staged'[w] == staged[w];
      }
      if share == item.share && x == ToLower(v) {
        assert v in staged';
      }
    }
  }

  lemma DropAgrees(staged: map<Vol, Item>, r: RefState, s: ScanState, v: Vol, mappings: set<string>)
    requires Distinct(staged) && Agree(staged, r, s) && v in staged
    ensures Agree(staged - {v}, RefDrop(r, v, staged[v].share).0, ScanState(s.links - {v}, mappings))
  {
    var staged', r' := staged - {v}, RefDrop(r, v, staged[v].share).0;
    forall share, x
      ensures x in RefsOf(r', share) <==> Referenced(staged', share, x)
    {
      if Referenced(staged, share, x) {
        var w :| w in staged && ToLower(w) == x && staged[w].share == share;
        assert w != v ==> w in staged' && staged'[w] == staged[w];
      }
    }
  }

  /** Another staged volume on the share of `v`. */
  ghost predicate Shared(staged: map<Vol, Item>, v: Vol)
    requires v in staged
  {
    exists w :: w in staged && ToLower(w) != ToLower(v) && staged[w].share == staged[v].share
  }

  lemma CountDecides(staged: map<Vol, Item>, r: RefState, v: Vol)
    requires v in staged
    requires forall x :: x in RefsOf(r, staged[v].share) <==> Referenced(staged, staged[v].share, x)
    ensures RefDrop(r, v, staged[v].share).1 == !Shared(staged, v)
  {
    var share := staged[v].share;
    var left := RefsOf(r, share) - {ToLower(v)};
    if x :| x in left {
      assert Referenced(staged, share, x);
    }
    if Shared(staged, v) {
      var w :| w in staged && ToLower(w) != ToLower(v) && staged[w].share == share;
      assert Referenced(staged, share, ToLower(w));
      assert ToLower(w) in left;
    }
  }

  lemma ScanDecides(staged: map<Vol, Item>, links: map<Vol, string>, v: Vol, remote: string)
    requires v in staged && links.Keys == staged.Keys
    requires forall w :: w in staged ==> (TrimSpace(links[w]) == remote <==> staged[w].share == staged[v].share)
    ensures HasDuplicate(links, v, remote) == Shared(staged, v)
  {
  }

  /** At an unmount of a staged volume both mounters make the same decision when links match shares. */
  lemma SameDecision(staged: map<Vol, Item>, r: RefState, s: ScanState, v: Vol)
    requires Matching(staged) && Agree(staged, r, s) && v in staged
    ensures RefDrop(r, v, staged[v].share).1 == !HasDuplicate(s.links, v, TrimSpace(s.links[v]))
  {
    CountDecides(staged, r, v);
    ScanDecides(staged, s.links, v, TrimSpace(s.links[v]));
  }

  /** Whether each unmount of the history removes the mapping. */
  ghost function RefDecisions(r: RefState, events: seq<Event>): seq<bool>
    decreases events
  {
    if events == [] then []
    else
      match events[0]
      case Stage(v, source, _) => RefDecisions(RefMount(r, v, source), events[1..])
      case Unstage(v) =>
        if v !in r.links then [] else [RefUnmount(r, v).1] + RefDecisions(RefUnmount(r, v).0, events[1..])
  }

  ghost function ScanDecisions(s: ScanState, events: seq<Event>): seq<bool>
    decreases events
  {
    if events == [] then []
    else
      match events[0]
      case Stage(v, source, valid) => ScanDecisions(ScanMount(s, v, source, valid), events[1..])
      case Unstage(v) =>
        if v !in s.links then [] else [ScanUnmount(s, v).1] + ScanDecisions(ScanUnmount(s, v).0, events[1..])
  }

  /** What holds of both mounters between the events of a history. */
  ghost predicate InStep(staged: map<Vol, Item>, r: RefState, s: ScanState, sources: set<string>)
    requires Proper(sources)
  {
    FromSources(staged, sources) && Distinct(staged) && Agree(staged, r, s)
  }

  lemma OneMoreSource(staged: map<Vol, Item>, v: Vol, source: string, valid: bool, sources: set<string>)
    requires Proper(sources) && FromSources(staged, sources) && Distinct(staged)
    requires Possible(staged, Stage(v, source, valid), sources)
    ensures FromSources(staged[v := ItemOf(source)], sources) && Distinct(staged[v := ItemOf(source)])
  {
  }

  lemma StageStep(staged: map<Vol, Item>, r: RefState, s: ScanState, v: Vol, source: string, valid: bool,
      sources: set<string>)
    requires Proper(sources) && InStep(staged, r, s, sources) && Possible(staged, Stage(v, source, valid), sources)
    ensures InStep(staged[v := ItemOf(source)], RefMount(r, v, source), ScanMount(s, v, source, valid), sources)
  {
    OneMoreSource(staged, v, source, valid, sources);
    AddAgrees(staged, r, s, v, ItemOf(source), ScanMount(s, v, source, valid).mappings);
    MountsAre(r, s, v, source, valid);
  }

  lemma MountsAre(r: RefState, s: ScanState, v: Vol, source: string, valid: bool)
    requires MountShare(source).Ok?
    ensures RefMount(r, v, source) == RefAdd(r, v, ItemOf(source).path, ItemOf(source).share)
    ensures ScanMount(s, v, source, valid) ==
            ScanState(s.links[v := ItemOf(source).link], ScanMount(s, v, source, valid).mappings)
  {
  }

  lemma UnstageStep(staged: map<Vol, Item>, r: RefState, s: ScanState, v: Vol, sources: set<string>)
    requires Proper(sources) && InStep(staged, r, s, sources) && v in staged
    ensures InStep(staged - {v}, RefUnmount(r, v).0, ScanUnmount(s, v).0, sources)
    ensures RefUnmount(r, v) == RefDrop(r, v, staged[v].share)
  {
    SourcesAreProper(staged, sources);
    assert UnmountShare(r.links[v]) == Ok(staged[v].share);
    DropAgrees(staged, r, s, v, ScanUnmount(s, v).0.mappings);
  }

  lemma {:induction false} DecisionsAgree(staged: map<Vol, Item>, r: RefState, s: ScanState, events: seq<Event>,
      sources: set<string>)
    requires Proper(sources) && SpelledAlike(sources) && InStep(staged, r, s, sources)
             && History(staged, events, sources)
    ensures RefDecisions(r, events) == ScanDecisions(s, events)
    decreases events
  {
    if events != [] {
      match events[0]
      case Stage(v, source, valid) =>
        StageStep(staged, r, s, v, source, valid, sources);
        DecisionsAgree(
          staged[v := ItemOf(source)], RefMount(r, v, source), ScanMount(s, v, source, valid), events[1..], sources);
      case Unstage(v) =>
        UnstageStep(staged, r, s, v, sources);
        SourcesMatch(staged, sources);
        SameDecision(staged, r, s, v);
        DecisionsAgree(staged - {v}, RefUnmount(r, v).0, ScanUnmount(s, v).0, events[1..], sources);
    }
  }

  const NoRefs := RefState(map[], map[], {})
  const NoLinks := ScanState(map[], {})

  /** Both mounters remove or keep the mapping alike at every unmount of every error-free sequential history. */
  ghost predicate AlwaysAgree(sources: set<string>)
    requires Proper(sources)
  {
    forall events :: History(map[], events, sources) ==> RefDecisions(NoRefs, events) == ScanDecisions(NoLinks, events)
  }

  /** Two volumes staged one after the other, and the first one unstaged. */
  function StageTwo(v: Vol, s: string, w: Vol, t: string): seq<Event> {
    [Stage(v, s, true), Stage(w, t, true), Unstage(v)]
  }

  lemma TwoStaged(v: Vol, s: string, w: Vol, t: string, sources: set<string>)
    requires Proper(sources) && s in sources && t in sources && !EqualFold(v, w)
    ensures InStep(map[v := ItemOf(s)][w := ItemOf(t)], RefMount(RefMount(NoRefs, v, s), w, t),
                   ScanMount(ScanMount(NoLinks, v, s, true), w, t, true), sources)
  {
    var none: map<Vol, Item> := map[];
    NothingStaged(sources);
    StageStep(none, NoRefs, NoLinks, v, s, true, sources);
    StageStep(none[v := ItemOf(s)], RefMount(NoRefs, v, s), ScanMount(NoLinks, v, s, true), w, t, true, sources);
  }

  lemma NothingStaged(sources: set<string>)
    requires Proper(sources)
    ensures InStep(map[], NoRefs, NoLinks, sources)
  {
  }

  lemma TwoMakeHistory(v: Vol, s: string, w: Vol, t: string, sources: set<string>)
    requires Proper(sources) && s in sources && t in sources && !EqualFold(v, w)
    ensures History(map[], StageTwo(v, s, w, t), sources)
  {
    var events := StageTwo(v, s, w, t);
    var last, two := [Unstage(v)], [Stage(w, t, true), Unstage(v)];
    assert events[1..] == two && two[1..] == last && last[1..] == [];
    var one := map[v := ItemOf(s)];
    assert Staged(map[], events[0], sources) == one;
    var both := one[w := ItemOf(t)];
    assert Staged(one, two[0], sources) == both;
    assert History(Staged(both, last[0], sources), [], sources);
    assert History(both, last, sources);
    assert History(one, two, sources);
  }

  lemma DecisionsOnTwo(v: Vol, s: string, w: Vol, t: string)
    requires var r := RefMount(RefMount(NoRefs, v, s), w, t);
             var l := ScanMount(ScanMount(NoLinks, v, s, true), w, t, true);
             v in r.links && v in l.links
    ensures RefDecisions(NoRefs, StageTwo(v, s, w, t)) == [RefUnmount(RefMount(RefMount(NoRefs, v, s), w, t), v).1]
    ensures ScanDecisions(NoLinks, StageTwo(v, s, w, t)) ==
            [ScanUnmount(ScanMount(ScanMount(NoLinks, v, s, true), w, t, true), v).1]
  {
    var events := StageTwo(v, s, w, t);
    assert events[1..] == [Stage(w, t, true), Unstage(v)] && events[1..][1..] == [Unstage(v)]
        && events[1..][1..][1..] == [];
    var r := RefMount(RefMount(NoRefs, v, s), w, t);
    var l := ScanMount(ScanMount(NoLinks, v, s, true), w, t, true);
    assert RefDecisions(r, [Unstage(v)]) == [RefUnmount(r, v).1] + RefDecisions(RefUnmount(r, v).0, []);
    assert ScanDecisions(l, [Unstage(v)]) == [ScanUnmount(l, v).1] + ScanDecisions(ScanUnmount(l, v).0, []);
  }

  /** With two volumes staged, one mounter looks at the shares and the other at the remote paths. */
  lemma TwoVolumesDecide(v: Vol, s: string, w: Vol, t: string, sources: set<string>)
    requires Proper(sources) && s in sources && t in sources && !EqualFold(v, w)
    ensures RefDecisions(NoRefs, StageTwo(v, s, w, t)) == [MountShare(s) != MountShare(t)]
    ensures ScanDecisions(NoLinks, StageTwo(v, s, w, t)) == [Remote(s) != Remote(t)]
  {
    var staged := map[v := ItemOf(s)][w := ItemOf(t)];
    var r, l := RefMount(RefMount(NoRefs, v, s), w, t), ScanMount(ScanMount(NoLinks, v, s, true), w, t, true);
    TwoStaged(v, s, w, t, sources);
    UnstageStep(staged, r, l, v, sources);
    DecisionsOnTwo(v, s, w, t);
    TwoItemsDecide(staged, r, l, v, w, sources);
    assert staged[v] == ItemOf(s) && staged[w] == ItemOf(t);
  }

  lemma TwoItemsDecide(staged: map<Vol, Item>, r: RefState, l: ScanState, v: Vol, w: Vol, sources: set<string>)
    requires Proper(sources) && InStep(staged, r, l, sources) && staged.Keys == {v, w} && !EqualFold(v, w)
    ensures RefDrop(r, v, staged[v].share).1 == (staged[v].share != staged[w].share)
    ensures ScanUnmount(l, v).1 == (TrimSpace(staged[v].link) != TrimSpace(staged[w].link))
  {
    CountDecides(staged, r, v);
    SharedOfTwo(staged, v, w);
    DuplicateOfTwo(l.links, v, w, TrimSpace(l.links[v]));
  }

  lemma SharedOfTwo(staged: map<Vol, Item>, v: Vol, w: Vol)
    requires staged.Keys == {v, w} && !EqualFold(v, w)
    ensures Shared(staged, v) <==> staged[v].share == staged[w].share
  {
    assert w in staged;
  }

  lemma DuplicateOfTwo(links: map<Vol, string>, v: Vol, w: Vol, remote: string)
    requires links.Keys == {v, w} && !EqualFold(v, w)
    ensures HasDuplicate(links, v, remote) <==> TrimSpace(links[w]) == remote
  {
    assert w in links;
  }

  /** The mounter that scans links and the mounter that counts reference files remove or keep the mapping alike on every
      error-free sequential history over some sources exactly when among these sources the same remote path and the
      same share come to the same. */
  lemma MountersAgreeIff(sources: set<string>)
    requires Proper(sources)
    ensures AlwaysAgree(sources) <==> SpelledAlike(sources)
  {
    if SpelledAlike(sources) {
      forall events | History(map[], events, sources)
        ensures RefDecisions(NoRefs, events) == ScanDecisions(NoLinks, events)
      {
        DecisionsAgree(map[], NoRefs, NoLinks, events, sources);
      }
    } else {
      var s, t :| s in sources && t in sources && !(MountShare(s) == MountShare(t) <==> Remote(s) == Remote(t));
      assert ToLower("a")[0] == 'a' && ToLower("b")[0] == 'b';
      TwoMakeHistory("a", s, "b", t, sources);
      TwoVolumesDecide("a", s, "b", t, sources);
    }
  }

  /** Two different subdirectories of one share are enough: one mounter keeps the mapping, the other removes it. */
  lemma SubdirectoriesDisagree(v: Vol, s: string, w: Vol, t: string)
    requires !EqualFold(v, w) && MountShare(s).Ok? && MountShare(t) == MountShare(s) && Remote(s) != Remote(t)
    ensures History(map[], StageTwo(v, s, w, t), {s, t})
    ensures RefDecisions(NoRefs, StageTwo(v, s, w, t)) == [false]
            && ScanDecisions(NoLinks, StageTwo(v, s, w, t)) == [true]
  {
    TwoMakeHistory(v, s, w, t, {s, t});
    TwoVolumesDecide(v, s, w, t, {s, t});
  }

  // ---------------------------------------------------------------- the mappings that are left

  /** What is staged after the events. */
  ghost function StagedAfter(staged: map<Vol, Item>, events: seq<Event>, sources: set<string>): map<Vol, Item>
    requires Proper(sources) && History(staged, events, sources)
    decreases events
  {
    if events == [] then staged else StagedAfter(Staged(staged, events[0], sources), events[1..], sources)
  }

  function RefStep(r: RefState, e: Event): RefState {
    match e
    case Stage(v, source, _) => RefMount(r, v, source)
    case Unstage(v) => if v in r.links then RefUnmount(r, v).0 else r
  }

  function ScanStep(s: ScanState, e: Event): ScanState {
    match e
    case Stage(v, source, valid) => ScanMount(s, v, source, valid)
    case Unstage(v) => if v in s.links then ScanUnmount(s, v).0 else s
  }

  function RefAfter(r: RefState, events: seq<Event>): RefState
    decreases events
  {
    if events == [] then r else RefAfter(RefStep(r, events[0]), events[1..])
  }

  function ScanAfter(s: ScanState, events: seq<Event>): ScanState
    decreases events
  {
    if events == [] then s else ScanAfter(ScanStep(s, events[0]), events[1..])
  }

  /** Mapped are exactly the shares of the staged volumes. */
  ghost predicate SharesMapped(staged: map<Vol, Item>, mappings: set<string>) {
    forall share :: share in mappings <==> exists v :: v in staged && staged[v].share == share
  }

  /** Mapped are exactly the link targets of the staged volumes. */
  ghost predicate LinksMapped(staged: map<Vol, Item>, mappings: set<string>) {
    forall link :: link in mappings <==> exists v :: v in staged && staged[v].link == link
  }

  lemma StepInStep(staged: map<Vol, Item>, r: RefState, s: ScanState, e: Event, sources: set<string>)
    requires Proper(sources) && InStep(staged, r, s, sources) && Possible(staged, e, sources)
    ensures InStep(Staged(staged, e, sources), RefStep(r, e), ScanStep(s, e), sources)
  {
    match e
    case Stage(v, source, valid) => StageStep(staged, r, s, v, source, valid, sources);
    case Unstage(v) => UnstageStep(staged, r, s, v, sources);
  }

  lemma AddShare(staged: map<Vol, Item>, mappings: set<string>, v: Vol, item: Item)
    requires SharesMapped(staged, mappings) && v !in staged
    ensures SharesMapped(staged[v := item], mappings + {item.share})
  {
    var staged' := staged[v := item];
    assert v in staged' && staged'[v] == item;
    assert forall w :: w in staged ==> w in staged' && staged'[w] == staged[w];
  }

  lemma DropShare(staged: map<Vol, Item>, mappings: set<string>, v: Vol)
    requires SharesMapped(staged, mappings) && Distinct(staged) && v in staged
    ensures SharesMapped(staged - {v}, if Shared(staged, v) then mappings else mappings - {staged[v].share})
  {
    var staged' := staged - {v};
    assert forall w :: w in staged && w != v ==> w in staged' && staged'[w] == staged[w];
    if Shared(staged, v) {
      var w :| w in staged && ToLower(w) != ToLower(v) && staged[w].share == staged[v].share;
      assert w in staged' && staged'[w].share == staged[v].share;
    }
  }

  lemma RefStepMaps(staged: map<Vol, Item>, r: RefState, s: ScanState, e: Event, sources: set<string>)
    requires Proper(sources) && InStep(staged, r, s, sources) && Possible(staged, e, sources)
    requires SharesMapped(staged, r.mappings)
    ensures SharesMapped(Staged(staged, e, sources), RefStep(r, e).mappings)
  {
    match e
    case Stage(v, source, valid) =>
      MountsAre(r, s, v, source, valid);
      AddShare(staged, r.mappings, v, ItemOf(source));
    case Unstage(v) =>
      UnstageStep(staged, r, s, v, sources);
      CountDecides(staged, r, v);
      DropShare(staged, r.mappings, v);
  }

  lemma {:induction false} RefMapsOnRun(
    staged: map<Vol, Item>, r: RefState, s: ScanState, events: seq<Event>, sources: set<string>)
    requires Proper(sources) && InStep(staged, r, s, sources) && History(staged, events, sources)
    requires SharesMapped(staged, r.mappings)
    ensures SharesMapped(StagedAfter(staged, events, sources), RefAfter(r, events).mappings)
    decreases events
  {
    if events != [] {
      StepInStep(staged, r, s, events[0], sources);
      RefStepMaps(staged, r, s, events[0], sources);
      RefMapsOnRun(
        Staged(staged, events[0], sources), RefStep(r, events[0]), ScanStep(s, events[0]), events[1..], sources);
    }
  }

  /** After every error-free sequential history, the mounter that counts references has mapped exactly the shares of the
      volumes that are staged. */
  lemma MappingsAreStagedShares(events: seq<Event>, sources: set<string>)
    requires Proper(sources) && History(map[], events, sources)
    ensures SharesMapped(StagedAfter(map[], events, sources), RefAfter(NoRefs, events).mappings)
  {
    NothingStaged(sources);
    RefMapsOnRun(map[], NoRefs, NoLinks, events, sources);
  }

  /** The link's target has neither outer spaces nor a backslash at its end. */
  predicate TidyLink(link: string) {
    TrimSpace(link) == link && TrimBackslash(link) == link
  }

  predicate Tidy(sources: set<string>) {
    forall s :: s in sources ==> TidyLink(ToBackslashes(s))
  }

  ghost predicate TidyStaged(staged: map<Vol, Item>) {
    forall v :: v in staged ==> TidyLink(staged[v].link)
  }

  lemma AddLink(staged: map<Vol, Item>, mappings: set<string>, v: Vol, item: Item)
    requires LinksMapped(staged, mappings) && v !in staged
    ensures LinksMapped(staged[v := item], mappings + {item.link})
  {
    var staged' := staged[v := item];
    assert v in staged' && staged'[v] == item;
    assert forall w :: w in staged ==> w in staged' && staged'[w] == staged[w];
  }

  /** Another staged volume has the same link target. */
  ghost predicate SameLink(staged: map<Vol, Item>, v: Vol)
    requires v in staged
  {
    exists w :: w in staged && w != v && staged[w].link == staged[v].link
  }

  lemma DropLink(staged: map<Vol, Item>, mappings: set<string>, v: Vol)
    requires LinksMapped(staged, mappings) && v in staged
    ensures LinksMapped(staged - {v}, if SameLink(staged, v) then mappings else mappings - {staged[v].link})
  {
    var staged' := staged - {v};
    assert forall w :: w in staged && w != v ==> w in staged' && staged'[w] == staged[w];
    if SameLink(staged, v) {
      var w :| w in staged && w != v && staged[w].link == staged[v].link;
      assert w in staged' && staged'[w].link == staged[v].link;
    }
  }

  lemma DuplicateIsSameLink(staged: map<Vol, Item>, links: map<Vol, string>, v: Vol)
    requires Distinct(staged) && TidyStaged(staged) && links.Keys == staged.Keys && v in staged
    requires forall w :: w in staged ==> links[w] == staged[w].link
    ensures HasDuplicate(links, v, TrimSpace(links[v])) <==> SameLink(staged, v)
  {
  }

  lemma TidyMount(s: ScanState, v: Vol, source: string, valid: bool)
    requires TidyLink(ToBackslashes(source))
    ensures ScanMount(s, v, source, valid).mappings == s.mappings + {ToBackslashes(source)}
  {
  }

  lemma TidyUnmount(s: ScanState, v: Vol)
    requires v in s.links && TidyLink(s.links[v])
    ensures ScanUnmount(s, v).0.mappings ==
            if HasDuplicate(s.links, v, TrimSpace(s.links[v])) then s.mappings else s.mappings - {s.links[v]}
  {
  }

  lemma ScanStageMaps(staged: map<Vol, Item>, s: ScanState, v: Vol, source: string, valid: bool)
    requires MountShare(source).Ok? && v !in staged && TidyLink(ToBackslashes(source))
    requires TidyStaged(staged) && LinksMapped(staged, s.mappings)
    ensures TidyStaged(staged[v := ItemOf(source)])
    ensures LinksMapped(staged[v := ItemOf(source)], ScanMount(s, v, source, valid).mappings)
  {
    TidyMount(s, v, source, valid);
    AddLink(staged, s.mappings, v, ItemOf(source));
  }

  lemma ScanUnstageMaps(staged: map<Vol, Item>, s: ScanState, v: Vol)
    requires v in staged && Distinct(staged) && s.links.Keys == staged.Keys
    requires forall w :: w in staged ==> s.links[w] == staged[w].link
    requires TidyStaged(staged) && LinksMapped(staged, s.mappings)
    ensures TidyStaged(staged - {v}) && LinksMapped(staged - {v}, ScanUnmount(s, v).0.mappings)
  {
    TidyUnmount(s, v);
    DuplicateIsSameLink(staged, s.links, v);
    DropLink(staged, s.mappings, v);
  }

  lemma ScanStepMaps(staged: map<Vol, Item>, r: RefState, s: ScanState, e: Event, sources: set<string>)
    requires Proper(sources) && Tidy(sources) && InStep(staged, r, s, sources) && Possible(staged, e, sources)
    requires TidyStaged(staged) && LinksMapped(staged, s.mappings)
    ensures TidyStaged(Staged(staged, e, sources))
    ensures LinksMapped(Staged(staged, e, sources), ScanStep(s, e).mappings)
  {
    match e
    case Stage(v, source, valid) => ScanStageMaps(staged, s, v, source, valid);
    case Unstage(v) => ScanUnstageMaps(staged, s, v);
  }

  lemma {:induction false} ScanMapsOnRun(
    staged: map<Vol, Item>, r: RefState, s: ScanState, events: seq<Event>, sources: set<string>)
    requires Proper(sources) && Tidy(sources) && InStep(staged, r, s, sources) && History(staged, events, sources)
    requires TidyStaged(staged) && LinksMapped(staged, s.mappings)
    ensures LinksMapped(StagedAfter(staged, events, sources), ScanAfter(s, events).mappings)
    decreases events
  {
    if events != [] {
      StepInStep(staged, r, s, events[0], sources);
      ScanStepMaps(staged, r, s, events[0], sources);
      ScanMapsOnRun(
        Staged(staged, events[0], sources), RefStep(r, events[0]), ScanStep(s, events[0]), events[1..], sources);
    }
  }

  /** After every error-free sequential history, mapped are exactly the link targets of the staged volumes. */
  ghost predicate LinksStayMapped(sources: set<string>)
    requires Proper(sources)
  {
    forall events :: History(map[], events, sources) ==>
      LinksMapped(StagedAfter(map[], events, sources), ScanAfter(NoLinks, events).mappings)
  }

  lemma {:induction false} TrimSpaceShortens(s: string)
    ensures |TrimSpace(s)| <= |s| && (|TrimSpace(s)| == |s| ==> TrimSpace(s) == s)
    decreases |s|
  {
    if s != "" {
      if IsSpace(s[0]) {
        TrimSpaceShortens(s[1..]);
      } else if IsSpace(s[|s| - 1]) {
        TrimSpaceShortens(s[..|s| - 1]);
      }
    }
  }

  function StageOne(v: Vol, source: string): seq<Event> {
    [Stage(v, source, true), Unstage(v)]
  }

  lemma OneMakesHistory(v: Vol, source: string, sources: set<string>)
    requires Proper(sources) && source in sources
    ensures History(map[], StageOne(v, source), sources)
    ensures StagedAfter(map[], StageOne(v, source), sources) == map[]
  {
    var events, last := StageOne(v, source), [Unstage(v)];
    var one := map[v := ItemOf(source)];
    assert events[1..] == last && last[1..] == [];
    assert Staged(map[], events[0], sources) == one && Staged(one, last[0], sources) == map[];
    assert History(map[], [], sources) && StagedAfter(map[], [], sources) == map[];
    assert History(one, last, sources) && StagedAfter(one, last, sources) == map[];
  }

  lemma ScanOfOne(v: Vol, source: string)
    ensures ScanAfter(NoLinks, StageOne(v, source)) ==
            ScanUnmount(ScanState(map[v := ToBackslashes(source)], {ToBackslashes(source)}), v).0
  {
    var events, last := StageOne(v, source), [Unstage(v)];
    assert events[1..] == last && last[1..] == [];
    var s := ScanState(map[v := ToBackslashes(source)], {ToBackslashes(source)});
    assert ScanStep(NoLinks, events[0]) == s;
    assert ScanAfter(ScanStep(s, last[0]), []) == ScanStep(s, last[0]);
    assert ScanAfter(s, last) == ScanStep(s, last[0]);
  }

  /** A mapping made for an untidy link outlives its volume. */
  lemma UntidyMappingStays(v: Vol, source: string)
    requires !TidyLink(ToBackslashes(source))
    ensures ToBackslashes(source) in ScanAfter(NoLinks, StageOne(v, source)).mappings
  {
    ScanOfOne(v, source);
    TrimSpaceShortens(ToBackslashes(source));
    assert TrimBackslash(TrimSpace(ToBackslashes(source))) != ToBackslashes(source);
  }

  /** The mounter that scans links keeps exactly the mappings it needs, on every such history, exactly when no source
      has outer spaces or a slash at its end. */
  lemma LinksStayMappedIff(sources: set<string>)
    requires Proper(sources)
    ensures LinksStayMapped(sources) <==> Tidy(sources)
  {
    if Tidy(sources) {
      NothingStaged(sources);
      forall events | History(map[], events, sources)
        ensures LinksMapped(StagedAfter(map[], events, sources), ScanAfter(NoLinks, events).mappings)
      {
        ScanMapsOnRun(map[], NoRefs, NoLinks, events, sources);
      }
    } else {
      var source :| source in sources && !TidyLink(ToBackslashes(source));
      OneMakesHistory("a", source, sources);
      UntidyMappingStays("a", source);
    }
  }
}
