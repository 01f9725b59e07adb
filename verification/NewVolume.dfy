/** Reading the storage class parameters (the loop of newSMBVolume, pkg/smb/controllerserver.go:456-515). */
module NewVolume {
  import opened GoStrings
  import opened Wrappers
  import P = Paths
  import T = Templates
  import V = VolumeId

  datatype Field = Source | SubDir | OnDelete | PvcName | PvcNamespace | PvName | Unknown

  /** Parameter names are compared in lower case. */
  function FieldOf(key: string): Field {
    var k := ToLower(key);
    if k == "source" then Source
    else if k == "subdir" then SubDir
    else if k == "ondelete" then OnDelete
    else if k == "csi.storage.k8s.io/pvc/namespace" then PvcNamespace
    else if k == "csi.storage.k8s.io/pvc/name" then PvcName
    else if k == "csi.storage.k8s.io/pv/name" then PvName
    else Unknown
  }

  predicate IsMetadata(f: Field) {
    f.PvcName? || f.PvcNamespace? || f.PvName?
  }

  /** The placeholder a metadata parameter gives the value of. */
  function PlaceholderOf(f: Field): (p: string)
    requires IsMetadata(f)
    ensures p in T.Placeholders
  {
    match f
    case PvcName => T.PvcName
    case PvcNamespace => T.PvcNamespace
    case PvName => T.PvName
  }

  lemma PlaceholdersDiffer(f: Field, g: Field)
    requires IsMetadata(f) && IsMetadata(g) && PlaceholderOf(f) == PlaceholderOf(g)
    ensures f == g
  {
    assert |T.PvcName| == 20 && |T.PvcNamespace| == 25 && |T.PvName| == 19;
  }

  /** No two keys name the same field. */
  predicate NoTwins(params: map<string, string>) {
    forall j, k :: j in params && k in params && FieldOf(j) == FieldOf(k) ==> j == k
  }

  predicate AllKnown(params: map<string, string>) {
    forall k :: k in params ==> !FieldOf(k).Unknown?
  }

  predicate Has(keys: set<string>, f: Field) {
    exists k :: k in keys && FieldOf(k) == f
  }

  /** `v` is a value the parameters among `keys` give to `f`, "" if none does. */
  predicate Reads(params: map<string, string>, keys: set<string>, f: Field, v: string)
    requires keys <= params.Keys
  {
    if Has(keys, f) then exists k :: k in keys && FieldOf(k) == f && v == params[k] else v == ""
  }

  /** `m` holds the metadata values given by `keys` under their placeholders, and nothing else. */
  ghost predicate ReadsMetadata(params: map<string, string>, keys: set<string>, m: map<string, string>)
    requires keys <= params.Keys
  {
    && m.Keys <= T.Placeholders
    && (forall f :: IsMetadata(f) ==> (PlaceholderOf(f) in m <==> Has(keys, f)))
    && (forall f :: IsMetadata(f) && PlaceholderOf(f) in m ==> Reads(params, keys, f, m[PlaceholderOf(f)]))
  }

  lemma ReadOneMore(params: map<string, string>, keys: set<string>, k: string, f: Field, v: string)
    requires keys <= params.Keys && k in params && Reads(params, keys, f, v)
    ensures Reads(params, keys + {k}, f, if FieldOf(k) == f then params[k] else v)
    ensures Has(keys + {k}, f) <==> Has(keys, f) || FieldOf(k) == f
  {
    if FieldOf(k) == f {
      assert k in keys + {k};
    } else if Has(keys, f) {
      var j :| j in keys && FieldOf(j) == f && v == params[j];
      assert j in keys + {k};
    }
  }

  lemma ReadMetadata(params: map<string, string>, keys: set<string>, k: string, m: map<string, string>)
    requires keys <= params.Keys && k in params && ReadsMetadata(params, keys, m)
    ensures var m' := if IsMetadata(FieldOf(k)) then m[PlaceholderOf(FieldOf(k)) := params[k]] else m;
            ReadsMetadata(params, keys + {k}, m')
  {
    var m' := if IsMetadata(FieldOf(k)) then m[PlaceholderOf(FieldOf(k)) := params[k]] else m;
    forall f | IsMetadata(f)
      ensures PlaceholderOf(f) in m' <==> Has(keys + {k}, f)
      ensures PlaceholderOf(f) in m' ==> Reads(params, keys + {k}, f, m'[PlaceholderOf(f)])
    {
      ReadOneMore(params, keys, k, f, if Has(keys, f) then m[PlaceholderOf(f)] else "");
      if IsMetadata(FieldOf(k)) && PlaceholderOf(f) == PlaceholderOf(FieldOf(k)) {
        PlaceholdersDiffer(f, FieldOf(k));
      }
    }
  }

  /** The variables the loop fills. */
  datatype Values = Values(source: string, subDir: string, onDelete: string, replace: map<string, string>)

  function Store(x: Values, f: Field, v: string): Values {
    match f
    case Source => x.(source := v)
    case SubDir => x.(subDir := v)
    case OnDelete => x.(onDelete := v)
    case Unknown => x
    case _ => x.(replace := x.replace[PlaceholderOf(f) := v])
  }

  ghost predicate ReadsAll(params: map<string, string>, keys: set<string>, x: Values)
    requires keys <= params.Keys
  {
    && Reads(params, keys, Source, x.source)
    && Reads(params, keys, SubDir, x.subDir)
    && Reads(params, keys, OnDelete, x.onDelete)
    && ReadsMetadata(params, keys, x.replace)
  }

  lemma StoreOneMore(params: map<string, string>, keys: set<string>, k: string, x: Values)
    requires keys <= params.Keys && k in params && ReadsAll(params, keys, x)
    ensures ReadsAll(params, keys + {k}, Store(x, FieldOf(k), params[k]))
  {
    ReadOneMore(params, keys, k, Source, x.source);
    ReadOneMore(params, keys, k, SubDir, x.subDir);
    ReadOneMore(params, keys, k, OnDelete, x.onDelete);
    ReadMetadata(params, keys, k, x.replace);
  }

  /** The loop over the parameters, in whatever order they come: it fails exactly on an unknown parameter, and
      otherwise gives every field a value that some key names for it. */
  method ReadParameters(params: map<string, string>) returns (r: Result<Values>)
    ensures r.Ok? <==> AllKnown(params)
    ensures r.Ok? ==> ReadsAll(params, params.Keys, r.value)
  {
    var x := Values("", "", "", map[]);
    var left := params.Keys;
    ghost var read: set<string> := {};
    while left != {}
      invariant read <= params.Keys && left == params.Keys - read
      invariant forall k :: k in read ==> !FieldOf(k).Unknown?
      invariant ReadsAll(params, read, x)
      decreases left
    {
      var k :| k in left;
      var f := FieldOf(k);
      if f.Unknown? {
        return Err;
      }
      StoreOneMore(params, read, k, x);
      x := Store(x, f, params[k]);
      read := read + {k};
      left := left - {k};
    }
    assert read == params.Keys;
    return Ok(x);
  }

  /** Where no two keys name the same field, there is only one way to read the parameters. */
  lemma ReadingIsDetermined(params: map<string, string>, x: Values, y: Values)
    requires NoTwins(params) && ReadsAll(params, params.Keys, x) && ReadsAll(params, params.Keys, y)
    ensures x == y
  {
    OneValue(params, Source, x.source, y.source);
    OneValue(params, SubDir, x.subDir, y.subDir);
    OneValue(params, OnDelete, x.onDelete, y.onDelete);
    forall p
      ensures p in x.replace <==> p in y.replace
      ensures p in x.replace ==> x.replace[p] == y.replace[p]
    {
      if p in T.Placeholders {
        var f := if p == T.PvcName then PvcName else if p == T.PvcNamespace then PvcNamespace else PvName;
        assert PlaceholderOf(f) == p;
        if p in x.replace {
          OneValue(params, f, x.replace[p], y.replace[p]);
        }
      }
    }
    assert x.replace.Keys == y.replace.Keys;
  }

  lemma OneValue(params: map<string, string>, f: Field, v: string, w: string)
    requires NoTwins(params) && Reads(params, params.Keys, f, v) && Reads(params, params.Keys, f, w)
    ensures v == w
  {
  }

  // ---------------------------------------------------------------- the parameters by their names

  lemma NamesApart(k: string)
    ensures k == "source" || k == "subdir" ==> |k| == 6
    ensures k == "source" ==> k[1] == 'o'
    ensures k == "subdir" ==> k[1] == 'u'
    ensures k == "ondelete" ==> |k| == 8
    ensures k == "csi.storage.k8s.io/pvc/namespace" ==> |k| == 32
    ensures k == "csi.storage.k8s.io/pvc/name" ==> |k| == 27
    ensures k == "csi.storage.k8s.io/pv/name" ==> |k| == 26
  {
  }

  /** Which parameter is which, by its name in any case of the letters. */
  lemma FieldNames(key: string)
    ensures FieldOf(key).Source? <==> ToLower(key) == "source"
    ensures FieldOf(key).SubDir? <==> ToLower(key) == "subdir"
    ensures FieldOf(key).OnDelete? <==> ToLower(key) == "ondelete"
    ensures FieldOf(key).PvcNamespace? <==> ToLower(key) == "csi.storage.k8s.io/pvc/namespace"
    ensures FieldOf(key).PvcName? <==> ToLower(key) == "csi.storage.k8s.io/pvc/name"
    ensures FieldOf(key).PvName? <==> ToLower(key) == "csi.storage.k8s.io/pv/name"
  {
    NamesApart(ToLower(key));
  }

  /** Every parameter known by its name, in any case, and no two with the same name: each value goes where its name
      says. */
  lemma ReadByName(params: map<string, string>, x: Values, key: string)
    requires NoTwins(params) && ReadsAll(params, params.Keys, x) && key in params
    ensures ToLower(key) == "source" ==> x.source == params[key]
    ensures ToLower(key) == "subdir" ==> x.subDir == params[key]
    ensures ToLower(key) == "ondelete" ==> x.onDelete == params[key]
  {
    FieldNames(key);
  }

  /** And each metadata value replaces the placeholder its name says. */
  lemma ReplacedByName(params: map<string, string>, x: Values, key: string)
    requires NoTwins(params) && ReadsAll(params, params.Keys, x) && key in params
    ensures ToLower(key) == "csi.storage.k8s.io/pvc/namespace" ==>
            MapsTo(x.replace, "${pvc.metadata.namespace}", params[key])
    ensures ToLower(key) == "csi.storage.k8s.io/pvc/name" ==> MapsTo(x.replace, "${pvc.metadata.name}", params[key])
    ensures ToLower(key) == "csi.storage.k8s.io/pv/name" ==> MapsTo(x.replace, "${pv.metadata.name}", params[key])
  {
    FieldNames(key);
    if IsMetadata(FieldOf(key)) {
      MetadataRead(params, x, key);
    }
  }

  predicate MapsTo(m: map<string, string>, k: string, v: string) {
    k in m && m[k] == v
  }

  lemma MetadataRead(params: map<string, string>, x: Values, key: string)
    requires NoTwins(params) && ReadsAll(params, params.Keys, x) && key in params && IsMetadata(FieldOf(key))
    ensures MapsTo(x.replace, PlaceholderOf(FieldOf(key)), params[key])
  {
  }

  /** What has no parameter is empty, or not replaced. */
  lemma AbsentIsEmpty(params: map<string, string>, x: Values)
    requires ReadsAll(params, params.Keys, x)
    ensures (forall k :: k in params ==> ToLower(k) != "source") ==> x.source == ""
    ensures (forall k :: k in params ==> ToLower(k) != "subdir") ==> x.subDir == ""
    ensures (forall k :: k in params ==> ToLower(k) != "ondelete") ==> x.onDelete == ""
  {
    forall k
      ensures FieldOf(k).Source? <==> ToLower(k) == "source"
      ensures FieldOf(k).SubDir? <==> ToLower(k) == "subdir"
      ensures FieldOf(k).OnDelete? <==> ToLower(k) == "ondelete"
    {
      FieldNames(k);
    }
  }

  /** newSMBVolume: an unknown parameter is refused; otherwise the volume is the one made from the values read, with
      the placeholders of the subdirectory replaced in some order of the map. */
  method NewSmbVolume(name: string, params: map<string, string>, defaultPolicy: string) returns (r: Result<V.Volume>)
    ensures !AllKnown(params) ==> r.Err?
    ensures AllKnown(params) ==>
              exists x: Values, resolved: string ::
                && ReadsAll(params, params.Keys, x)
                && T.InSomeOrder(x.subDir, x.replace, resolved)
                && (T.WellFormed(x.subDir) && T.Harmless(x.replace) ==> resolved == T.Substitute(x.subDir, x.replace))
                && r == V.NewVolume(name, V.Params(x.source, x.subDir, resolved, x.onDelete), defaultPolicy)
  {
    var read := ReadParameters(params);
    if read.Err? {
      return Err;
    }
    var x := read.value;
    var resolved := T.ReplaceWithMap(x.subDir, x.replace);
    r := V.NewVolume(name, V.Params(x.source, x.subDir, resolved, x.onDelete), defaultPolicy);
  }

  // ---------------------------------------------------------------- what the node makes of it

  /** The subdirectory parameter, or the name that stands in for it. */
  function Wanted(name: string, subDir: string): string {
    if subDir == "" then name else subDir
  }

  lemma UndisturbedName(name: string, m: map<string, string>, staged: string)
    requires T.Undisturbed(name, m) && T.InSomeOrder(name, m, staged)
    ensures staged == name
  {
    var keys :| T.Order(keys, m) && staged == T.ReplaceInOrder(name, keys, m);
    T.UndisturbedStays(name, keys, m);
  }

  /** The node replaces placeholders once more, in an order of its own, in the subdirectory it is given: the parameter
      or name as it was requested, or what the controller made of it. Either way it names the controller's directory,
      and the path it joins from source and subdirectory passes its check. */
  lemma NodeStagesControllerDirectory(
    name: string, p: V.Params, defaultPolicy: string, m: map<string, string>, given: string, staged: string)
    requires V.NewVolume(name, p, defaultPolicy).Ok? && m.Keys <= T.Placeholders && T.Quiet(m)
    requires T.WellFormed(p.subDir) && T.InSomeOrder(p.subDir, m, p.resolved)
    requires p.subDir == "" ==> T.Undisturbed(name, m)
    requires given == Wanted(name, p.subDir) || given == V.NewVolume(name, p, defaultPolicy).value.subDir
    requires T.InSomeOrder(given, m, staged)
    ensures var v := V.NewVolume(name, p, defaultPolicy).value;
            staged == v.subDir && P.ValidPath(TrimRight(v.source, '/') + "/" + staged)
  {
    V.CreatedFields(name, p, defaultPolicy);
    V.AcceptedPassesNodeCheck(name, p, defaultPolicy);
    if p.subDir == "" {
      UndisturbedName(name, m, staged);
    } else {
      T.NodeNamesControllerDirectory(p.subDir, m, p.resolved, given, staged);
    }
  }
}
