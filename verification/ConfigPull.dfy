/** The pull: storing a remote configuration under the local-only fields. */
module ConfigPull {
  import opened ConfigDiff
  import opened Outcomes
  import opened Texts

  // ---------- what is stored ----------

  /** What stands at a key on the way, once anything falsy has been replaced by an object. */
  function Child(j: Tree, key: string): Json
  {
    if key !in j.fields || Falsy(j.fields[key]) then Obj(map[]) else j.fields[key]
  }

  /**
   * Setting a value at a path. On a scalar it throws; what is set on a list is no item of it, and is
   * lost when the list is written.
   */
  function SetNested(j: Tree, keys: seq<string>, value: Json): Option<Tree>
    requires keys != []
    decreases |keys|
  {
    var key := keys[0];
    if |keys| == 1 then Some(Obj(j.fields[key := value])) else
      match Child(j, key)
      case Scalar(_) => None
      case List(_) => Some(j)
      case Obj(_) =>
        match SetNested(Child(j, key), keys[1..], value)
        case None => None
        case Some(child) => Some(Obj(j.fields[key := child]))
  }

  /** A scalar that is not falsy stands on the way. */
  ghost predicate Blocked(j: Tree, keys: seq<string>) {
    exists i :: 0 < i < |keys| && Follow(j, keys[..i]).Some? && StopsAt(Follow(j, keys[..i]).value)
  }

  predicate StopsAt(j: Json) { j.Scalar? && !Falsy(j) }

  /** A list does. */
  ghost predicate ListInWay(j: Tree, keys: seq<string>) {
    exists i :: 0 < i < |keys| && Follow(j, keys[..i]).Some? && Follow(j, keys[..i]).value.List?
  }

  predicate Apart(p: seq<string>, q: seq<string>) { !(p <= q) && !(q <= p) }

  lemma BelowFirst(j: Tree, keys: seq<string>)
    requires |keys| > 1
    ensures forall i :: 1 < i < |keys| ==>
              Follow(j, keys[..i]) ==
                if keys[0] in j.fields then Follow(j.fields[keys[0]], keys[1..][..i - 1]) else None
    ensures Follow(j, keys[..1]) == Field(j, keys[0])
  {
    assert keys[..1][1..] == [];
    forall i | 1 < i < |keys|
      ensures keys[..i][1..] == keys[1..][..i - 1]
    {
    }
  }

  lemma BlockedBelow(j: Tree, keys: seq<string>)
    requires |keys| > 1 && Child(j, keys[0]).Obj?
    ensures Blocked(j, keys) <==> Blocked(Child(j, keys[0]), keys[1..])
    ensures ListInWay(j, keys) <==> ListInWay(Child(j, keys[0]), keys[1..])
  {
    BelowFirst(j, keys);
    var child := Child(j, keys[0]);
    forall i | 1 < i < |keys|
      ensures Follow(j, keys[..i]) == Follow(child, keys[1..][..i - 1])
    {
    }
    if Blocked(j, keys) {
      var i :| 0 < i < |keys| && Follow(j, keys[..i]).Some? && StopsAt(Follow(j, keys[..i]).value);
      assert Follow(child, keys[1..][..i - 1]).Some?;
    }
    if Blocked(child, keys[1..]) {
      var i :| 0 < i < |keys| - 1 && Follow(child, keys[1..][..i]).Some?
               && StopsAt(Follow(child, keys[1..][..i]).value);
      assert Follow(j, keys[..i + 1]) == Follow(child, keys[1..][..i + 1 - 1]);
    }
    if ListInWay(j, keys) {
      var i :| 0 < i < |keys| && Follow(j, keys[..i]).Some? && Follow(j, keys[..i]).value.List?;
      assert Follow(child, keys[1..][..i - 1]).Some?;
    }
    if ListInWay(child, keys[1..]) {
      var i :| 0 < i < |keys| - 1 && Follow(child, keys[1..][..i]).Some? && Follow(child, keys[1..][..i]).value.List?;
      assert Follow(j, keys[..i + 1]) == Follow(child, keys[1..][..i + 1 - 1]);
    }
  }

  /**
   * Setting throws exactly when a scalar that is not falsy stands on the way; a list there loses the value,
   * and otherwise the value is there afterwards. No path apart from the set one shows anything else.
   */
  lemma {:induction false} SetIs(j: Tree, keys: seq<string>, value: Json)
    requires keys != []
    ensures SetNested(j, keys, value) == None <==> Blocked(j, keys)
    ensures ListInWay(j, keys) ==> SetNested(j, keys, value) == Some(j)
    ensures !Blocked(j, keys) && !ListInWay(j, keys) ==> Follow(SetNested(j, keys, value).value, keys) == Some(value)
    ensures !Blocked(j, keys) ==>
              forall p :: Apart(p, keys) ==> Follow(SetNested(j, keys, value).value, p) == Follow(j, p)
    decreases |keys|
  {
    var key := keys[0];
    if |keys| == 1 {
      assert keys[1..] == [];
    } else {
      BelowFirst(j, keys);
      if Child(j, key).Obj? {
        SetIs(Child(j, key), keys[1..], value);
        BlockedBelow(j, keys);
        if ListInWay(j, keys) {
          var i :| 0 < i < |keys| && Follow(j, keys[..i]).Some? && Follow(j, keys[..i]).value.List?;
          assert keys[..i][0] == key;
          assert j.fields[key := j.fields[key]] == j.fields;
        }
        hide Blocked, ListInWay;
      }
    }
  }

  /** The remote configuration under the local values at the excluded paths, unless setting them throws. */
  function Preserve(local: Tree, remote: Tree, excluded: seq<string>): Option<Tree>
  {
    if excluded == [] then Some(remote) else
      var n := |excluded| - 1;
      match Preserve(local, remote, excluded[..n])
      case None => None
      case Some(kept) => KeepLocal(local, kept, Split(excluded[n]))
  }

  function KeepLocal(local: Tree, kept: Tree, keys: seq<string>): Option<Tree>
    requires keys != []
  {
    match Follow(local, keys)
    case None => Some(kept)
    case Some(value) => SetNested(kept, keys, value)
  }

  /** What a pull stores for one chain. */
  function Pulled(local: Tree, remote: Tree, excluded: seq<string>): Option<Tree>
  {
    if DiffOf(local, remote, excluded, "") == map[] then Some(local) else Preserve(local, remote, excluded)
  }

  // ---------- paths that a tree already has ----------

  /** The path, up to its last key, runs through objects of the tree, or through an excluded path. */
  predicate Through(j: Json, excluded: seq<string>, path: string, keys: seq<string>)
    decreases |keys|
  {
    keys != [] &&
    (|| KeyPath(path, keys[0]) in excluded
     || (|keys| > 1 && j.Obj? && keys[0] in j.fields && j.fields[keys[0]].Obj?
         && Through(j.fields[keys[0]], excluded, KeyPath(path, keys[0]), keys[1..])))
  }

  /** Paths as the diff writes them: it writes no dot after an empty key at the top. */
  predicate Plain(excluded: seq<string>) {
    forall i :: 0 <= i < |excluded| && excluded[i] != "" ==> excluded[i][0] != '.'
  }

  lemma {:induction false} JoinedText(path: string, keys: seq<string>)
    requires path != ""
    ensures Joined(path, keys) == path + DotJoin(keys)
    decreases |keys|
  {
    if keys == [] {
      assert path + "" == path;
    } else {
      JoinedText(path + "." + keys[0], keys[1..]);
      assert (path + "." + keys[0]) + DotJoin(keys[1..]) == path + ("." + (keys[0] + DotJoin(keys[1..])));
    }
  }

  lemma JoinedSplit(text: string)
    requires text != "" ==> text[0] != '.'
    ensures Joined("", Split(text)) == text
  {
    hide Split, DotJoin;
    var keys := Split(text);
    SplitAll(text);
    if text != "" {
      FirstPart(text);
      JoinedText(keys[0], keys[1..]);
      DotJoinStep(keys[0], keys[1..]);
      assert keys == [keys[0]] + keys[1..];
      assert ("." + text)[1..] == text && ("." + (keys[0] + DotJoin(keys[1..])))[1..] == keys[0] + DotJoin(keys[1..]);
    } else {
      assert keys == [""] && keys[1..] == [];
    }
  }

  lemma FirstPart(text: string)
    requires text != "" && text[0] != '.'
    ensures Split(text)[0] != ""
  {
  }

  lemma OneFieldChanged(j: Tree, key: string, x: Json, excluded: seq<string>, path: string)
    requires
      || KeyPath(path, key) in excluded
      || (key in j.fields && SameShapes(x, j.fields[key], excluded, KeyPath(path, key)))
    ensures SameShapes(Obj(j.fields[key := x]), j, excluded, path)
  {
    hide KeyPath, SameShapes;
    var after: Tree := Obj(j.fields[key := x]);
    forall k | KeyPath(path, k) !in excluded
      ensures SameField(Field(after, k), Field(j, k), excluded, KeyPath(path, k))
    {
      if k in j.fields {
        SameShapesReflexive(j.fields[k], excluded, KeyPath(path, k));
      }
    }
    SameFieldsSameShapes(after, j, excluded, path);
  }

  /** Setting a value below a path the tree already has changes nothing that is compared. */
  lemma {:induction false} SetKeepsShapes(j: Tree, keys: seq<string>, value: Json, excluded: seq<string>, path: string)
    requires Through(j, excluded, path, keys) && SetNested(j, keys, value).Some?
    ensures SameShapes(SetNested(j, keys, value).value, j, excluded, path)
    decreases |keys|
  {
    hide KeyPath, SameShapes;
    var key := keys[0];
    if |keys| > 1 && Child(j, key).List? {
      SameShapesReflexive(j, excluded, path);
    } else {
      if KeyPath(path, key) !in excluded {
        SetKeepsShapes(j.fields[key], keys[1..], value, excluded, KeyPath(path, key));
      }
      OneFieldChanged(j, key, SetNested(j, keys, value).value.fields[key], excluded, path);
    }
  }

  lemma ListShown(j: Tree, key: string, excluded: seq<string>, path: string)
    requires KeyPath(path, key) !in excluded && key in j.fields
    requires j.fields[key].List? || !NoLists(j.fields[key], excluded, KeyPath(path, key))
    ensures !NoLists(j, excluded, path)
  {
    hide KeyPath;
    NoListsByKey(j, excluded, path);
    assert Included(excluded, KeyPath(path, key), []);
    assert j.fields[key].List? ==> ShapeAt(j.fields[key], []).Sequence?;
  }

  lemma ScalarHasNoLists(x: Json, excluded: seq<string>, path: string)
    requires x.Scalar?
    ensures NoLists(x, excluded, path)
  {
  }

  /** Once a value is set, the tree has its path, or a list in its way. */
  lemma {:induction false} SetThrough(j: Tree, keys: seq<string>, value: Json, excluded: seq<string>, path: string)
    requires keys != [] && Joined(path, keys) in excluded && SetNested(j, keys, value).Some?
    ensures var after := SetNested(j, keys, value).value;
            Through(after, excluded, path, keys) || !NoLists(after, excluded, path)
    decreases |keys|
  {
    hide KeyPath, NoLists;
    var key := keys[0];
    var after := SetNested(j, keys, value).value;
    if |keys| == 1 {
      assert keys[1..] == [];
    } else if KeyPath(path, key) !in excluded {
      if Child(j, key).List? {
        ListShown(j, key, excluded, path);
      } else {
        SetThrough(Child(j, key), keys[1..], value, excluded, KeyPath(path, key));
        if !NoLists(after.fields[key], excluded, KeyPath(path, key)) {
          ListShown(after, key, excluded, path);
        }
      }
    }
  }

  /** Setting a value at an excluded path loses no other path, and no list. */
  lemma {:induction false} ThroughStays(j: Tree, target: seq<string>, value: Json, keys: seq<string>,
                                        excluded: seq<string>, path: string)
    requires target != [] && Joined(path, target) in excluded && SetNested(j, target, value).Some?
    requires Through(j, excluded, path, keys)
    ensures Through(SetNested(j, target, value).value, excluded, path, keys)
    decreases |keys|
  {
    hide KeyPath;
    var key := keys[0];
    assert |target| == 1 ==> target[1..] == [];
    if KeyPath(path, key) !in excluded && target[0] == key {
      ThroughStays(j.fields[key], target[1..], value, keys[1..], excluded, KeyPath(path, key));
    }
  }

  lemma {:induction false} ListStays(j: Tree, keys: seq<string>, value: Json, excluded: seq<string>, path: string)
    requires keys != [] && Joined(path, keys) in excluded && SetNested(j, keys, value).Some?
    requires !NoLists(j, excluded, path)
    ensures !NoLists(SetNested(j, keys, value).value, excluded, path)
    decreases |keys|
  {
    hide KeyPath, NoLists;
    NoListsByKey(j, excluded, path);
    var after := SetNested(j, keys, value).value;
    var key :| KeyPath(path, key) !in excluded && key in j.fields
               && !NoLists(j.fields[key], excluded, KeyPath(path, key));
    assert |keys| == 1 ==> keys[1..] == [];
    if keys[0] == key {
      if j.fields[key].Obj? {
        ListStays(j.fields[key], keys[1..], value, excluded, KeyPath(path, key));
      } else if j.fields[key].Scalar? {
        ScalarHasNoLists(j.fields[key], excluded, KeyPath(path, key));
      }
    }
    if after != j {
      ListShown(after, key, excluded, path);
    }
  }

  /** Trees that show the same have the same paths. */
  lemma {:induction false} ThroughSame(a: Json, b: Json, excluded: seq<string>, path: string, keys: seq<string>)
    requires a.Obj? && b.Obj? && SameShapes(a, b, excluded, path) && Through(a, excluded, path, keys)
    ensures Through(b, excluded, path, keys)
    decreases |keys|
  {
    hide KeyPath, SameShapes;
    var key := keys[0];
    if KeyPath(path, key) !in excluded {
      SameShapesSameFields(a, b, excluded, path);
      assert SameField(Field(a, key), Field(b, key), excluded, KeyPath(path, key));
      ObjectShows(a.fields[key], b.fields[key], excluded, KeyPath(path, key));
      ThroughSame(a.fields[key], b.fields[key], excluded, KeyPath(path, key), keys[1..]);
    }
  }

  lemma ObjectShows(a: Json, b: Json, excluded: seq<string>, path: string)
    requires SameShapes(a, b, excluded, path)
    ensures a.Obj? ==> b.Obj?
  {
    assert Included(excluded, path, []);
    assert ShapeAt(a, []) == ShapeAt(b, []);
  }

  /** A tree has the paths of its values. */
  lemma {:induction false} FollowThrough(j: Json, excluded: seq<string>, path: string, keys: seq<string>)
    requires keys != [] && Follow(j, keys).Some? && Joined(path, keys) in excluded
    ensures Through(j, excluded, path, keys)
    decreases |keys|
  {
    hide KeyPath;
    if |keys| > 1 {
      FollowThrough(j.fields[keys[0]], excluded, KeyPath(path, keys[0]), keys[1..]);
    } else {
      assert keys[1..] == [];
    }
  }

  // ---------- the next diff ----------

  /** The remote already has the path of every local-only value among the first n paths. */
  ghost predicate Has(j: Tree, local: Tree, excluded: seq<string>, n: nat)
    requires n <= |excluded|
  {
    forall i :: 0 <= i < n && Follow(local, Split(excluded[i])).Some? ==> Through(j, excluded, "", Split(excluded[i]))
  }

  lemma PathNamed(excluded: seq<string>, i: nat)
    requires Plain(excluded) && i < |excluded|
    ensures Joined("", Split(excluded[i])) in excluded
  {
    JoinedSplit(excluded[i]);
  }

  lemma PreserveStep(local: Tree, remote: Tree, excluded: seq<string>, n: nat)
    requires 0 < n <= |excluded|
    ensures var before := Preserve(local, remote, excluded[..n - 1]);
            Preserve(local, remote, excluded[..n]) ==
              if before.None? then None else KeepLocal(local, before.value, Split(excluded[n - 1]))
  {
    assert excluded[..n][..n - 1] == excluded[..n - 1];
  }

  lemma {:induction false} HadShowsRemote(local: Tree, remote: Tree, excluded: seq<string>, n: nat)
    requires Plain(excluded) && n <= |excluded| && Has(remote, local, excluded, n)
    requires Preserve(local, remote, excluded[..n]).Some?
    ensures SameShapes(Preserve(local, remote, excluded[..n]).value, remote, excluded, "")
  {
    hide SameShapes, Through, Split, SetNested;
    if n == 0 {
      SameShapesReflexive(remote, excluded, "");
    } else {
      hide Preserve;
      PreserveStep(local, remote, excluded, n);
      HadShowsRemote(local, remote, excluded, n - 1);
      var kept, keys := Preserve(local, remote, excluded[..n - 1]).value, Split(excluded[n - 1]);
      if Follow(local, keys).Some? {
        SameShapesSymmetric(kept, remote, excluded, "");
        ThroughSame(remote, kept, excluded, "", keys);
        SetKeepsShapes(kept, keys, Follow(local, keys).value, excluded, "");
        SameShapesTransitive(Preserve(local, remote, excluded[..n]).value, kept, remote, excluded, "");
      }
    }
  }

  lemma SameShapesTransitive(a: Json, b: Json, c: Json, excluded: seq<string>, path: string)
    requires SameShapes(a, b, excluded, path) && SameShapes(b, c, excluded, path)
    ensures SameShapes(a, c, excluded, path)
  {
    hide ShapeAt, Included;
  }

  lemma {:induction false} PreservedHas(local: Tree, remote: Tree, excluded: seq<string>, n: nat)
    requires Plain(excluded) && n <= |excluded|
    requires Preserve(local, remote, excluded[..n]).Some?
    ensures var kept := Preserve(local, remote, excluded[..n]).value;
            NoLists(kept, excluded, "") ==> Has(kept, local, excluded, n)
  {
    hide NoLists, Through, Split, SetNested, Preserve;
    if n > 0 {
      PreserveStep(local, remote, excluded, n);
      PreservedHas(local, remote, excluded, n - 1);
      var before, keys := Preserve(local, remote, excluded[..n - 1]).value, Split(excluded[n - 1]);
      var after := Preserve(local, remote, excluded[..n]).value;
      if Follow(local, keys).Some? && NoLists(after, excluded, "") {
        var value := Follow(local, keys).value;
        PathNamed(excluded, n - 1);
        SetThrough(before, keys, value, excluded, "");
        if !NoLists(before, excluded, "") {
          ListStays(before, keys, value, excluded, "");
        }
        forall i | 0 <= i < n - 1 && Follow(local, Split(excluded[i])).Some?
          ensures Through(after, excluded, "", Split(excluded[i]))
        {
          ThroughStays(before, keys, value, Split(excluded[i]), excluded, "");
        }
      }
    }
  }

  lemma HasSame(a: Tree, b: Tree, local: Tree, excluded: seq<string>)
    requires SameShapes(a, b, excluded, "") && Has(a, local, excluded, |excluded|)
    ensures Has(b, local, excluded, |excluded|)
  {
    hide SameShapes, Through, Split;
    forall i | 0 <= i < |excluded| && Follow(local, Split(excluded[i])).Some?
      ensures Through(b, excluded, "", Split(excluded[i]))
    {
      ThroughSame(a, b, excluded, "", Split(excluded[i]));
    }
  }

  lemma LocalHas(local: Tree, excluded: seq<string>)
    requires Plain(excluded)
    ensures Has(local, local, excluded, |excluded|)
  {
    hide Through, Split;
    forall i | 0 <= i < |excluded| && Follow(local, Split(excluded[i])).Some?
      ensures Through(local, excluded, "", Split(excluded[i]))
    {
      PathNamed(excluded, i);
      FollowThrough(local, excluded, "", Split(excluded[i]));
    }
  }

  /**
   * After a pull the next diff is empty exactly when the remote has no lists where paths are
   * compared and already has the path of every local-only value, up to its last key.
   */
  lemma NextDiffEmpty(local: Tree, remote: Tree, excluded: seq<string>)
    requires Plain(excluded) && Pulled(local, remote, excluded).Some?
    ensures DiffOf(Pulled(local, remote, excluded).value, remote, excluded, "") == map[] <==>
              NoLists(remote, excluded, "") && Has(remote, local, excluded, |excluded|)
  {
    hide DiffOf, Preserve, SameShapes, NoLists, Has, Plain;
    var stored := Pulled(local, remote, excluded).value;
    EmptyWhenSame(stored, remote, excluded, "");
    if SameShapes(stored, remote, excluded, "") {
      SameLists(stored, remote, excluded, "");
    }
    if DiffOf(local, remote, excluded, "") == map[] {
      LocalHas(local, excluded);
      HasSame(local, remote, local, excluded);
    } else {
      assert excluded[..|excluded|] == excluded;
      if Has(remote, local, excluded, |excluded|) {
        HadShowsRemote(local, remote, excluded, |excluded|);
      }
      if SameShapes(stored, remote, excluded, "") && NoLists(stored, excluded, "") {
        PreservedHas(local, remote, excluded, |excluded|);
        HasSame(stored, remote, local, excluded);
      }
    }
  }

  // ---------- local-only values are kept ----------

  /** No list stands in the way of a path. */
  predicate Open(j: Json, keys: seq<string>)
    decreases |keys|
  {
    |keys| <= 1 || !j.Obj? || keys[0] !in j.fields ||
    (!j.fields[keys[0]].List? && Open(j.fields[keys[0]], keys[1..]))
  }

  lemma {:induction false} FollowOpen(j: Json, keys: seq<string>)
    requires Follow(j, keys).Some?
    ensures Open(j, keys)
    decreases |keys|
  {
    if keys != [] {
      FollowOpen(j.fields[keys[0]], keys[1..]);
    }
  }

  /** Setting the value that is there changes nothing. */
  lemma {:induction false} SetSame(j: Tree, keys: seq<string>)
    requires keys != [] && Follow(j, keys).Some?
    ensures SetNested(j, keys, Follow(j, keys).value) == Some(j)
    decreases |keys|
  {
    var key := keys[0];
    if |keys| == 1 {
      assert Follow(j, keys) == Follow(j.fields[key], []) == Some(j.fields[key]);
    } else {
      assert Follow(j.fields[key], keys[1..]).Some? && Child(j, key) == j.fields[key];
      SetSame(j.fields[key], keys[1..]);
    }
    assert j.fields[key := j.fields[key]] == j.fields;
  }

  /** Setting one local value keeps another that is already there. */
  lemma {:induction false} SetLocal(j: Tree, local: Tree, target: seq<string>, keys: seq<string>)
    requires target != [] && keys != [] && Follow(local, target).Some? && Follow(local, keys).Some? && Open(j, keys)
    requires SetNested(j, target, Follow(local, target).value).Some?
    ensures var after := SetNested(j, target, Follow(local, target).value).value;
            && Open(after, keys)
            && (Follow(j, keys) == Follow(local, keys) || target == keys ==> Follow(after, keys) == Follow(local, keys))
    decreases |keys|
  {
    var key, value := keys[0], Follow(local, target).value;
    var after := SetNested(j, target, value).value;
    if target[0] == key {
      var child := local.fields[key];
      assert Follow(local, keys) == Follow(child, keys[1..]) && Follow(local, target) == Follow(child, target[1..]);
      if |target| == 1 {
        assert target[1..] == [] && after.fields[key] == child;
        FollowOpen(child, keys[1..]);
      } else if |keys| == 1 {
        assert keys == [key] && target != keys;
        FollowOne(j, key);
        FollowOne(local, key);
        FollowOne(after, key);
        if Follow(j, keys) == Some(child) {
          SetSame(child, target[1..]);
        }
      } else {
        SetLocal(Child(j, key), child, target[1..], keys[1..]);
        assert target == [key] + target[1..] && keys == [key] + keys[1..];
        assert Follow(j, keys).Some? ==> Follow(j, keys) == Follow(Child(j, key), keys[1..]);
        assert Follow(after, keys) == Follow(after.fields[key], keys[1..]);
      }
    }
  }

  lemma {:induction false} PreservedLocal(local: Tree, remote: Tree, excluded: seq<string>, n: nat, keys: seq<string>)
    requires n <= |excluded| && Preserve(local, remote, excluded[..n]).Some?
    requires keys != [] && Follow(local, keys).Some? && Open(remote, keys)
    ensures var kept := Preserve(local, remote, excluded[..n]).value;
            && Open(kept, keys)
            && ((exists i :: 0 <= i < n && Split(excluded[i]) == keys) ==> Follow(kept, keys) == Follow(local, keys))
  {
    hide Split, SetNested, Follow, Open;
    if n > 0 {
      PreserveStep(local, remote, excluded, n);
      PreservedLocal(local, remote, excluded, n - 1, keys);
      var before, target := Preserve(local, remote, excluded[..n - 1]).value, Split(excluded[n - 1]);
      if Follow(local, target).Some? {
        SetLocal(before, local, target, keys);
      }
    }
  }

  /** A pull keeps every local-only value, unless the remote has a list in its way. */
  lemma LocalValuesKept(local: Tree, remote: Tree, excluded: seq<string>, i: nat)
    requires Pulled(local, remote, excluded).Some? && i < |excluded|
    requires Follow(local, Split(excluded[i])).Some? && Open(remote, Split(excluded[i]))
    ensures Follow(Pulled(local, remote, excluded).value, Split(excluded[i])) == Follow(local, Split(excluded[i]))
  {
    hide DiffOf, Preserve, Split, Follow, Open;
    assert excluded[..|excluded|] == excluded;
    if DiffOf(local, remote, excluded, "") != map[] {
      PreservedLocal(local, remote, excluded, |excluded|, Split(excluded[i]));
    }
  }

  // ---------- top-level and nested paths ----------

  /** Local-only keys, all at the top level, as the one there is. */
  predicate TopLevel(excluded: seq<string>) { forall i :: 0 <= i < |excluded| ==> '.' !in excluded[i] }

  lemma {:induction false} TopLevelSet(local: Tree, remote: Tree, excluded: seq<string>)
    requires TopLevel(excluded)
    ensures Preserve(local, remote, excluded).Some?
  {
    hide Split;
    if excluded != [] {
      var n := |excluded| - 1;
      TopLevelSet(local, remote, excluded[..n]);
      assert Split(excluded[n]) == [excluded[n]];
    }
  }

  /** With those a pull never throws, keeps them, and leaves no difference unless the remote has lists. */
  lemma TopLevelPull(local: Tree, remote: Tree, excluded: seq<string>)
    requires TopLevel(excluded)
    ensures var stored := Pulled(local, remote, excluded);
            && stored.Some?
            && (DiffOf(stored.value, remote, excluded, "") == map[] <==> NoLists(remote, excluded, ""))
            && (forall key :: key in excluded && key in local.fields ==> Field(stored.value, key) == Field(local, key))
  {
    hide DiffOf, Preserve, NoLists, Split;
    TopLevelSet(local, remote, excluded);
    forall i | 0 <= i < |excluded|
      ensures Split(excluded[i]) == [excluded[i]]
    {
    }
    NextDiffEmpty(local, remote, excluded);
    var stored := Pulled(local, remote, excluded).value;
    forall key | key in excluded && key in local.fields
      ensures Field(stored, key) == Field(local, key)
    {
      var i :| 0 <= i < |excluded| && excluded[i] == key;
      assert Split(excluded[i]) == [key];
      FollowOne(local, key);
      FollowOne(stored, key);
      LocalValuesKept(local, remote, excluded, i);
    }
  }

  lemma FollowOne(j: Tree, key: string)
    ensures Follow(j, [key]) == Field(j, key)
  {
  }

  function Under(key: string, j: Json): Tree { Obj(map[key := j]) }

  /** A configuration whose one value is local-only, at a nested path. */
  const Nested: Tree := Under("a", Under("b", Scalar(Text("1"))))

  /** Without its parent in the remote a nested local-only value leaves a difference there. */
  lemma ParentMissing()
    ensures Pulled(Nested, Obj(map[]), ["a.b"]) == Some(Nested) && DiffOf(Nested, Obj(map[]), ["a.b"], "") != map[]
  {
    NestedStored(Obj(map[]));
    FirstKey();
    hide Preserve, Split;
    assert DiffAt(Nested, Obj(map[]), ["a.b"], "", "a").Some?;
  }

  /** With it there is none. */
  lemma ParentPresent()
    ensures var remote := Under("a", Obj(map[]));
            Pulled(Nested, remote, ["a.b"]) == Some(Nested) && DiffOf(Nested, remote, ["a.b"], "") == map[]
  {
    var remote := Under("a", Obj(map[]));
    NestedStored(remote);
    FirstKey();
    hide Preserve, Split;
    NothingBelow(Under("b", Scalar(Text("1"))), Obj(map[]));
    EmptyDiff(Nested, remote, ["a.b"], "");
  }

  /** Under a scalar the pull throws. */
  lemma ParentScalar()
    ensures Pulled(Nested, Under("a", Scalar(Text("2"))), ["a.b"]) == None
  {
    var remote := Under("a", Scalar(Text("2")));
    NestedStored(remote);
    FirstKey();
    hide Preserve, Split;
    assert DiffAt(Nested, remote, ["a.b"], "", "a").Some?;
  }

  lemma FirstKey()
    ensures KeyPath("", "a") == "a" && "a" !in ["a.b"]
  {
    assert |"a"| != |"a.b"|;
  }

  lemma NestedStored(remote: Tree)
    ensures Preserve(Nested, remote, ["a.b"]) == SetNested(remote, ["a", "b"], Scalar(Text("1")))
    ensures Child(remote, "a") == Obj(map[]) && remote.fields.Keys <= {"a"} ==>
              SetNested(remote, ["a", "b"], Scalar(Text("1"))) == Some(Nested)
    ensures Child(remote, "a").Scalar? ==> SetNested(remote, ["a", "b"], Scalar(Text("1"))) == None
  {
    hide Split, Preserve;
    SplitTwo("a", "b");
    assert "a" + "." + "b" == "a.b" && ["a", "b"][1..] == ["b"];
    OnePath(Nested, remote, "a.b");
    FollowOne(Under("b", Scalar(Text("1"))), "b");
    assert Follow(Nested, ["a", "b"]) == Follow(Nested.fields["a"], ["b"]);
    var below := Under("b", Scalar(Text("1")));
    assert SetNested(Obj(map[]), ["b"], Scalar(Text("1"))) == Some(below);
    if remote.fields.Keys <= {"a"} {
      assert remote.fields["a" := below] == map["a" := below];
    }
  }

  lemma OnePath(local: Tree, remote: Tree, text: string)
    ensures Preserve(local, remote, [text]) == KeepLocal(local, remote, Split(text))
  {
    hide KeepLocal, Split;
    PreserveStep(local, remote, [text], 1);
    assert [text][..1] == [text] && [text][..0] == [];
  }

  lemma NothingBelow(a: Tree, b: Tree)
    requires a.fields.Keys == {"b"} && b.fields == map[]
    ensures DiffOf(a, b, ["a.b"], "a") == map[]
  {
    EmptyDiff(a, b, ["a.b"], "a");
    assert KeyPath("a", "b") == "a.b";
  }

  // ---------- the code ----------

  method PullChain(local: Tree, remote: Tree, excluded: seq<string>) returns (stored: Option<Tree>, changed: bool)
    ensures stored == Pulled(local, remote, excluded)
    ensures changed <==> DiffOf(local, remote, excluded, "") != map[]
  {
    hide DiffOf, SetNested, Split, Preserve;
    var diff := DiffObjects(local, remote, excluded, "");
    if |diff| == 0 {
      return Some(local), false;
    }
    changed := true;
    var kept := remote;
    assert Preserve(local, remote, []) == Some(remote) by { NothingPreserved(local, remote); }
    assert excluded[..|excluded|] == excluded;
    for i := 0 to |excluded|
      invariant Preserve(local, remote, excluded[..i]) == Some(kept)
    {
      PreserveStep(local, remote, excluded, i + 1);
      var keys := Split(excluded[i]);
      var localValue := Follow(local, keys);
      if localValue.Some? {
        var next := SetNested(kept, keys, localValue.value);
        if next == None {
          ThrowStays(local, remote, excluded, i + 1);
          return None, true;
        }
        kept := next.value;
      }
    }
    stored := Some(kept);
  }

  lemma NothingPreserved(local: Tree, remote: Tree)
    ensures Preserve(local, remote, []) == Some(remote)
  {
  }

  lemma {:induction false} ThrowStays(local: Tree, remote: Tree, excluded: seq<string>, n: nat)
    requires n <= |excluded| && Preserve(local, remote, excluded[..n]) == None
    ensures Preserve(local, remote, excluded) == None
    decreases |excluded| - n
  {
    hide Preserve;
    if n < |excluded| {
      PreserveStep(local, remote, excluded, n + 1);
      ThrowStays(local, remote, excluded, n + 1);
    } else {
      assert excluded[..n] == excluded;
    }
  }

  ghost predicate Differs(chains: map<string, Tree>, remotes: map<string, Tree>, excluded: seq<string>)
    requires remotes.Keys <= chains.Keys
  {
    exists c :: c in remotes && DiffOf(chains[c], remotes[c], excluded, "") != map[]
  }

  ghost predicate Throws(chains: map<string, Tree>, remotes: map<string, Tree>, excluded: seq<string>)
    requires remotes.Keys <= chains.Keys
  {
    exists c :: c in remotes && Pulled(chains[c], remotes[c], excluded) == None
  }

  /** Every chain that could be read as pulled, the others as they were. */
  function Merged(chains: map<string, Tree>, remotes: map<string, Tree>, excluded: seq<string>): map<string, Tree>
    requires remotes.Keys <= chains.Keys
  {
    map c | c in chains ::
      if c in remotes && Pulled(chains[c], remotes[c], excluded).Some?
      then Pulled(chains[c], remotes[c], excluded).value else chains[c]
  }

  /** The loop over the chains that could be read; it ends when a value cannot be set. */
  method MergeRemotes(chains: map<string, Tree>, remotes: map<string, Tree>, excluded: seq<string>)
    returns (merged: Option<map<string, Tree>>, changed: bool)
    requires remotes.Keys <= chains.Keys
    ensures merged == None <==> Throws(chains, remotes, excluded)
    ensures merged.Some? ==> merged.value == Merged(chains, remotes, excluded)
    ensures merged.Some? ==>
              && merged.value.Keys == chains.Keys
              && (forall c :: c in chains && c !in remotes ==> merged.value[c] == chains[c])
              && (forall c :: c in remotes ==> Some(merged.value[c]) == Pulled(chains[c], remotes[c], excluded))
    ensures merged.Some? ==> (changed <==> Differs(chains, remotes, excluded))
  {
    hide DiffOf, Pulled, Merged;
    var all := chains;
    changed := false;
    var todo := remotes.Keys;
    while todo != {}
      invariant todo <= remotes.Keys && all.Keys == chains.Keys
      invariant forall c :: c in chains && (c !in remotes || c in todo) ==> all[c] == chains[c]
      invariant forall c :: c in remotes && c !in todo ==> Some(all[c]) == Pulled(chains[c], remotes[c], excluded)
      invariant changed <==>
                exists c :: c in remotes && c !in todo && DiffOf(chains[c], remotes[c], excluded, "") != map[]
      decreases |todo|
    {
      var c :| c in todo;
      todo := todo - {c};
      var one, differs := PullChain(all[c], remotes[c], excluded);
      if one == None {
        return None, changed;
      }
      UnchangedIsLocal(chains[c], remotes[c], excluded);
      if differs {
        changed := true;
        all := all[c := one.value];
      }
    }
    MergedIs(chains, remotes, excluded, all);
    merged := Some(all);
  }

  lemma MergedIs(chains: map<string, Tree>, remotes: map<string, Tree>, excluded: seq<string>, all: map<string, Tree>)
    requires remotes.Keys <= chains.Keys && all.Keys == chains.Keys
    requires forall c :: c in chains && c !in remotes ==> all[c] == chains[c]
    requires forall c :: c in remotes ==> Some(all[c]) == Pulled(chains[c], remotes[c], excluded)
    ensures all == Merged(chains, remotes, excluded)
  {
    hide Pulled;
  }

  datatype PullEnd = Threw | Incomplete | UpToDate | Declined | Written

  /** The file the chains are read from and written to. */
  class ConfigFile {
    var chains: map<string, Tree>

    /**
     * The whole command: it writes only when every chain could be fetched, no value failed to be set,
     * something changed, in the merged configuration or by filling in inbound limits, and it is confirmed.
     */
    method Pull(remotes: map<string, Tree>, failures: set<string>, excluded: seq<string>,
                fillIn: map<string, Tree> -> Option<map<string, Tree>>, confirmed: bool) returns (end: PullEnd)
      requires remotes.Keys <= chains.Keys
      modifies this
      ensures var merged := Merged(old(chains), remotes, excluded);
              var filled := fillIn(merged);
              && (end.Threw? <==> Throws(old(chains), remotes, excluded))
              && (!end.Threw? ==>
                    && (end.Incomplete? <==> failures != {})
                    && (failures == {} ==>
                          && (end.UpToDate? <==> !Differs(old(chains), remotes, excluded) && filled == None)
                          && (end.Written? ==> confirmed) && (end.Declined? ==> !confirmed)))
              && chains == (if !end.Written? then old(chains) else if filled.Some? then filled.value else merged)
              && (!end.Threw? ==>
                    && merged.Keys == old(chains).Keys
                    && (forall c :: c in old(chains) && c !in remotes ==> merged[c] == old(chains)[c])
                    && (forall c :: c in remotes ==> Some(merged[c]) == Pulled(old(chains)[c], remotes[c], excluded)))
    {
      hide Pulled, DiffOf;
      var merged, changed := MergeRemotes(chains, remotes, excluded);
      if merged == None {
        return Threw;
      }
      if failures != {} {
        return Incomplete;
      }
      var filled := fillIn(merged.value);
      if !changed && filled == None {
        return UpToDate;
      }
      if !confirmed {
        return Declined;
      }
      chains := if filled.Some? then filled.value else merged.value;
      return Written;
    }
  }

  lemma UnchangedIsLocal(local: Tree, remote: Tree, excluded: seq<string>)
    ensures DiffOf(local, remote, excluded, "") == map[] ==> Pulled(local, remote, excluded) == Some(local)
  {
  }
}
