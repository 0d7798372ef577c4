/** The recursive configuration diff, and applying it. */
module ConfigDiff {
  import opened Outcomes

  datatype Atom = Null | Flag(b: bool) | Number(value: real) | Text(text: string)

  /** Arrays are compared by reference, and two configurations never share one. */
  datatype Json = Scalar(value: Atom) | List(items: seq<Json>) | Obj(fields: map<string, Json>)

  datatype Node = Entry(push: Option<Json>, pull: Option<Json>) | Sub(entries: map<string, Node>)

  type Tree = j: Json | j.Obj? witness Obj(map[])

  function KeyPath(path: string, key: string): string
  {
    if path == "" then key else path + "." + key
  }

  function Field(j: Tree, key: string): Option<Json>
  {
    if key in j.fields then Some(j.fields[key]) else None
  }

  predicate Falsy(j: Json) {
    j == Scalar(Null) || j == Scalar(Flag(false)) || j == Scalar(Number(0.0)) || j == Scalar(Text(""))
  }

  // ---------- the diff ----------

  function DiffOf(a: Tree, b: Tree, excluded: seq<string>, path: string): (d: map<string, Node>)
    ensures forall key :: key in d <==> DiffAt(a, b, excluded, path, key).Some?
    ensures forall key :: key in d ==> d[key] == DiffAt(a, b, excluded, path, key).value
    decreases a, 1
  {
    map key | key in a.fields.Keys + b.fields.Keys && DiffAt(a, b, excluded, path, key).Some?
      :: DiffAt(a, b, excluded, path, key).value
  }

  /** What the diff says at one key, if anything. */
  function DiffAt(a: Tree, b: Tree, excluded: seq<string>, path: string, key: string): Option<Node>
    decreases a, 0
  {
    if KeyPath(path, key) in excluded then None
    else if key in a.fields && key in b.fields then
      var x, y := a.fields[key], b.fields[key];
      if x.Obj? && y.Obj? then
        var sub := DiffOf(x, y, excluded, KeyPath(path, key));
        if sub == map[] then None else Some(Sub(sub))
      else if x.Scalar? && x == y then None
      else Some(Entry(Some(x), Some(y)))
    else if key in a.fields then Some(Entry(Some(a.fields[key]), None))
    else if key in b.fields then Some(Entry(None, Some(b.fields[key])))
    else None
  }

  // ---------- what two trees show along a path ----------

  function Follow(j: Json, keys: seq<string>): Option<Json>
  {
    if keys == [] then Some(j)
    else if j.Obj? && keys[0] in j.fields then Follow(j.fields[keys[0]], keys[1..])
    else None
  }

  datatype Shape = Missing | Value(value: Atom) | Sequence(items: seq<Json>) | Object

  function ShapeAt(j: Json, keys: seq<string>): Shape
  {
    match Follow(j, keys)
    case None => Missing
    case Some(Scalar(v)) => Value(v)
    case Some(List(items)) => Sequence(items)
    case Some(Obj(_)) => Object
  }

  /** No prefix of the path is excluded. */
  predicate Included(excluded: seq<string>, path: string, keys: seq<string>)
    decreases |keys|
  {
    keys == [] || (KeyPath(path, keys[0]) !in excluded && Included(excluded, KeyPath(path, keys[0]), keys[1..]))
  }

  ghost predicate SameShapes(a: Json, b: Json, excluded: seq<string>, path: string) {
    forall keys :: Included(excluded, path, keys) ==> ShapeAt(a, keys) == ShapeAt(b, keys)
  }

  ghost predicate NoLists(a: Json, excluded: seq<string>, path: string) {
    forall keys :: Included(excluded, path, keys) ==> !ShapeAt(a, keys).Sequence?
  }

  // ---------- empty exactly when the trees agree ----------

  lemma FollowStep(j: Json, key: string, keys: seq<string>)
    ensures ShapeAt(j, [key] + keys) == if j.Obj? && key in j.fields then ShapeAt(j.fields[key], keys) else Missing
  {
    assert ([key] + keys)[1..] == keys;
  }

  lemma IncludedStep(excluded: seq<string>, path: string, key: string, keys: seq<string>)
    ensures Included(excluded, path, [key] + keys) <==>
              KeyPath(path, key) !in excluded && Included(excluded, KeyPath(path, key), keys)
  {
    assert ([key] + keys)[1..] == keys;
  }

  /** Two optional fields show the same. */
  ghost predicate SameField(x: Option<Json>, y: Option<Json>, excluded: seq<string>, path: string) {
    match (x, y)
    case (None, None) => true
    case (Some(u), Some(v)) => SameShapes(u, v, excluded, path)
    case _ => false
  }

  ghost predicate SameFields(a: Tree, b: Tree, excluded: seq<string>, path: string) {
    forall key :: KeyPath(path, key) !in excluded ==>
      SameField(Field(a, key), Field(b, key), excluded, KeyPath(path, key))
  }

  lemma ShapeOfField(j: Tree, key: string, keys: seq<string>)
    ensures ShapeAt(j, [key] + keys) == match Field(j, key) case None => Missing case Some(x) => ShapeAt(x, keys)
    ensures forall x: Json :: ShapeAt(x, []) != Missing
  {
    FollowStep(j, key, keys);
  }

  lemma SameShapesSameFields(a: Tree, b: Tree, excluded: seq<string>, path: string)
    requires SameShapes(a, b, excluded, path)
    ensures SameFields(a, b, excluded, path)
  {
    hide KeyPath, ShapeAt, Field;
    forall key | KeyPath(path, key) !in excluded
      ensures SameField(Field(a, key), Field(b, key), excluded, KeyPath(path, key))
    {
      forall keys | Included(excluded, KeyPath(path, key), keys)
        ensures ShapeAt(a, [key] + keys) == ShapeAt(b, [key] + keys)
      {
        IncludedStep(excluded, path, key, keys);
      }
      ShapeOfField(a, key, []);
      ShapeOfField(b, key, []);
      forall keys
        ensures ShapeAt(a, [key] + keys) == match Field(a, key) case None => Missing case Some(x) => ShapeAt(x, keys)
        ensures ShapeAt(b, [key] + keys) == match Field(b, key) case None => Missing case Some(x) => ShapeAt(x, keys)
      {
        ShapeOfField(a, key, keys);
        ShapeOfField(b, key, keys);
      }
      assert Included(excluded, KeyPath(path, key), []);
    }
  }

  lemma SameFieldsSameShapes(a: Tree, b: Tree, excluded: seq<string>, path: string)
    requires SameFields(a, b, excluded, path)
    ensures SameShapes(a, b, excluded, path)
  {
    hide KeyPath, Field;
    forall keys | Included(excluded, path, keys)
      ensures ShapeAt(a, keys) == ShapeAt(b, keys)
    {
      if keys != [] {
        var key := keys[0];
        assert keys == [key] + keys[1..];
        ShapeOfField(a, key, keys[1..]);
        ShapeOfField(b, key, keys[1..]);
        assert SameField(Field(a, key), Field(b, key), excluded, KeyPath(path, key));
      }
    }
  }

  ghost predicate NoListFields(a: Tree, excluded: seq<string>, path: string) {
    forall key :: KeyPath(path, key) !in excluded && key in a.fields ==>
      NoLists(a.fields[key], excluded, KeyPath(path, key))
  }

  lemma NoListsByKey(a: Tree, excluded: seq<string>, path: string)
    ensures NoLists(a, excluded, path) <==> NoListFields(a, excluded, path)
  {
    hide KeyPath, ShapeAt;
    if NoLists(a, excluded, path) {
      forall key, keys | && KeyPath(path, key) !in excluded && key in a.fields
                         && Included(excluded, KeyPath(path, key), keys)
        ensures !ShapeAt(a.fields[key], keys).Sequence?
      {
        IncludedStep(excluded, path, key, keys);
        FollowStep(a, key, keys);
        assert !ShapeAt(a, [key] + keys).Sequence?;
      }
    }
    if NoListFields(a, excluded, path) {
      forall keys | Included(excluded, path, keys)
        ensures !ShapeAt(a, keys).Sequence?
      {
        if keys == [] {
          RootShape(a);
        } else {
          assert keys == [keys[0]] + keys[1..];
          FollowStep(a, keys[0], keys[1..]);
        }
      }
    }
  }

  lemma RootShape(a: Tree)
    ensures ShapeAt(a, []) == Object
  {
  }

  ghost predicate NoDifference(a: Tree, b: Tree, excluded: seq<string>, path: string) {
    forall key :: DiffAt(a, b, excluded, path, key) == None
  }

  lemma EmptyDiff(a: Tree, b: Tree, excluded: seq<string>, path: string)
    ensures DiffOf(a, b, excluded, path) == map[] <==> NoDifference(a, b, excluded, path)
  {
    hide DiffAt, KeyPath;
    var d := DiffOf(a, b, excluded, path);
    if d == map[] {
      forall key
        ensures DiffAt(a, b, excluded, path, key) == None
      {
        assert key !in d;
      }
      assert NoDifference(a, b, excluded, path);
    } else {
      var key :| key in d;
      assert DiffAt(a, b, excluded, path, key).Some?;
    }
  }

  /**
   * The diff is empty exactly when the trees show the same along every path that is not excluded,
   * and show no list there.
   */
  lemma {:induction false} EmptyWhenSame(a: Tree, b: Tree, excluded: seq<string>, path: string)
    ensures DiffOf(a, b, excluded, path) == map[] <==>
              SameShapes(a, b, excluded, path) && NoLists(a, excluded, path)
    decreases a
  {
    hide KeyPath, SameShapes, NoLists, DiffAt;
    NoListsByKey(a, excluded, path);
    if SameShapes(a, b, excluded, path) { SameShapesSameFields(a, b, excluded, path); }
    if SameFields(a, b, excluded, path) { SameFieldsSameShapes(a, b, excluded, path); }
    forall key
      ensures DiffAt(a, b, excluded, path, key) == None <==> KeyAgrees(a, b, excluded, path, key)
    {
      if key in a.fields && key in b.fields && a.fields[key].Obj? && b.fields[key].Obj? {
        EmptyWhenSame(a.fields[key], b.fields[key], excluded, KeyPath(path, key));
      }
      NoneWhenAgreed(a, b, excluded, path, key);
    }
    EmptyDiff(a, b, excluded, path);
    EveryKeyAgrees(a, b, excluded, path);
  }

  lemma EveryKeyAgrees(a: Tree, b: Tree, excluded: seq<string>, path: string)
    ensures (forall key :: KeyAgrees(a, b, excluded, path, key)) <==>
              SameFields(a, b, excluded, path) && NoListFields(a, excluded, path)
  {
    hide KeyPath, SameField, NoLists;
    if SameFields(a, b, excluded, path) && NoListFields(a, excluded, path) {
      forall key
        ensures KeyAgrees(a, b, excluded, path, key)
      {
      }
    }
    if forall key :: KeyAgrees(a, b, excluded, path, key) {
      forall key | KeyPath(path, key) !in excluded
        ensures SameField(Field(a, key), Field(b, key), excluded, KeyPath(path, key))
        ensures key in a.fields ==> NoLists(a.fields[key], excluded, KeyPath(path, key))
      {
        assert KeyAgrees(a, b, excluded, path, key);
      }
    }
  }

  ghost predicate KeyAgrees(a: Tree, b: Tree, excluded: seq<string>, path: string, key: string) {
    KeyPath(path, key) !in excluded ==>
      && SameField(Field(a, key), Field(b, key), excluded, KeyPath(path, key))
      && (key in a.fields ==> NoLists(a.fields[key], excluded, KeyPath(path, key)))
  }

  lemma LeafShapes(x: Json, y: Json, excluded: seq<string>, path: string)
    requires !(x.Obj? && y.Obj?)
    ensures SameShapes(x, y, excluded, path) && NoLists(x, excluded, path) <==> x.Scalar? && x == y
  {
    assert Included(excluded, path, []);
    assert ShapeAt(x, []) == ShapeAt(y, []) ==> (x.Scalar? <==> y.Scalar?);
  }

  lemma NoneWhenAgreed(a: Tree, b: Tree, excluded: seq<string>, path: string, key: string)
    requires key in a.fields && key in b.fields && a.fields[key].Obj? && b.fields[key].Obj? ==>
               (DiffOf(a.fields[key], b.fields[key], excluded, KeyPath(path, key)) == map[] <==>
                SameShapes(a.fields[key], b.fields[key], excluded, KeyPath(path, key))
                && NoLists(a.fields[key], excluded, KeyPath(path, key)))
    ensures DiffAt(a, b, excluded, path, key) == None <==> KeyAgrees(a, b, excluded, path, key)
  {
    hide KeyPath, SameShapes, NoLists, DiffOf;
    if key in a.fields && key in b.fields && !(a.fields[key].Obj? && b.fields[key].Obj?) {
      LeafShapes(a.fields[key], b.fields[key], excluded, KeyPath(path, key));
    }
  }

  // ---------- applying the push side ----------

  function ApplyPush(b: Tree, d: map<string, Node>): Tree
    decreases b, 1
  {
    Obj(map key | key in b.fields.Keys + d.Keys && Pushed(b, d, key).Some? :: Pushed(b, d, key).value)
  }

  /** One key after the push sides are applied: a difference without one is deleted. */
  function Pushed(b: Tree, d: map<string, Node>, key: string): Option<Json>
    decreases b, 0
  {
    if key !in d then Field(b, key)
    else
      match d[key]
      case Entry(push, _) => push
      case Sub(entries) =>
        if key in b.fields && b.fields[key].Obj? then Some(ApplyPush(b.fields[key], entries)) else Field(b, key)
  }

  lemma PushedField(b: Tree, d: map<string, Node>, key: string)
    ensures Field(ApplyPush(b, d), key) == Pushed(b, d, key)
  {
  }

  lemma SameShapesSymmetric(a: Json, b: Json, excluded: seq<string>, path: string)
    requires SameShapes(a, b, excluded, path)
    ensures SameShapes(b, a, excluded, path)
  {
  }

  lemma SameShapesReflexive(a: Json, excluded: seq<string>, path: string)
    ensures SameShapes(a, a, excluded, path)
  {
  }

  /** Applying the diff to the remote tree rebuilds the local one wherever nothing is excluded. */
  lemma {:induction false} PushRebuilds(a: Tree, b: Tree, excluded: seq<string>, path: string)
    ensures SameShapes(ApplyPush(b, DiffOf(a, b, excluded, path)), a, excluded, path)
    decreases a
  {
    hide KeyPath, SameShapes, DiffOf, ApplyPush;
    var d := DiffOf(a, b, excluded, path);
    forall key | KeyPath(path, key) !in excluded
      ensures SameField(Field(ApplyPush(b, d), key), Field(a, key), excluded, KeyPath(path, key))
    {
      if key in a.fields && key in b.fields && a.fields[key].Obj? && b.fields[key].Obj? {
        PushRebuilds(a.fields[key], b.fields[key], excluded, KeyPath(path, key));
      }
      PushRebuildsKey(a, b, excluded, path, key);
    }
    SameFieldsSameShapes(ApplyPush(b, d), a, excluded, path);
  }

  lemma PushRebuildsKey(a: Tree, b: Tree, excluded: seq<string>, path: string, key: string)
    requires KeyPath(path, key) !in excluded
    requires key in a.fields && key in b.fields && a.fields[key].Obj? && b.fields[key].Obj? ==>
               SameShapes(ApplyPush(b.fields[key], DiffOf(a.fields[key], b.fields[key], excluded, KeyPath(path, key))),
                          a.fields[key], excluded, KeyPath(path, key))
    ensures SameField(Field(ApplyPush(b, DiffOf(a, b, excluded, path)), key),
                      Field(a, key), excluded, KeyPath(path, key))
  {
    hide KeyPath, SameShapes, DiffOf, ApplyPush;
    PushedField(b, DiffOf(a, b, excluded, path), key);
    if key in a.fields {
      SameShapesReflexive(a.fields[key], excluded, KeyPath(path, key));
      if key in b.fields && a.fields[key].Obj? && b.fields[key].Obj? {
        EmptyWhenSame(a.fields[key], b.fields[key], excluded, KeyPath(path, key));
        if SameShapes(a.fields[key], b.fields[key], excluded, KeyPath(path, key)) {
          SameShapesSymmetric(a.fields[key], b.fields[key], excluded, KeyPath(path, key));
        }
      }
    }
  }

  /** At an excluded key of objects both trees have, the remote value stays. */
  lemma {:induction false} PushKeepsExcluded(a: Tree, b: Tree, excluded: seq<string>, path: string,
                                             keys: seq<string>, last: string)
    requires Included(excluded, path, keys) && KeyPath(Joined(path, keys), last) in excluded
    requires ShapeAt(a, keys) == Object && ShapeAt(b, keys) == Object
    ensures Follow(ApplyPush(b, DiffOf(a, b, excluded, path)), keys + [last]) == Follow(b, keys + [last])
    decreases |keys|
  {
    hide KeyPath, DiffOf, ApplyPush;
    var d := DiffOf(a, b, excluded, path);
    if keys == [] {
      assert [] + [last] == [last];
      PushedField(b, d, last);
    } else {
      var key := keys[0];
      assert (keys + [last])[0] == key && (keys + [last])[1..] == keys[1..] + [last];
      ObjectBelow(a, keys);
      ObjectBelow(b, keys);
      PushKeepsExcluded(a.fields[key], b.fields[key], excluded, KeyPath(path, key), keys[1..], last);
      PushedField(b, d, key);
    }
  }

  lemma ObjectBelow(j: Tree, keys: seq<string>)
    requires keys != [] && ShapeAt(j, keys) == Object
    ensures keys[0] in j.fields && j.fields[keys[0]].Obj? && ShapeAt(j.fields[keys[0]], keys[1..]) == Object
  {
    var child := j.fields[keys[0]];
    assert Follow(j, keys) == Follow(child, keys[1..]);
    if keys[1..] == [] {
      assert Follow(child, keys[1..]) == Some(child);
    }
  }

  function Joined(path: string, keys: seq<string>): string
    decreases |keys|
  {
    if keys == [] then path else Joined(KeyPath(path, keys[0]), keys[1..])
  }

  lemma {:induction false} SameEverywhere(a: Json, b: Json, path: string)
    requires SameShapes(a, b, [], path)
    ensures a == b
    decreases a
  {
    assert Included([], path, []);
    assert ShapeAt(a, []) == ShapeAt(b, []);
    if a.Obj? {
      SameShapesSameFields(a, b, [], path);
      hide SameShapes, KeyPath;
      forall key
        ensures Field(a, key) == Field(b, key)
      {
        assert SameField(Field(a, key), Field(b, key), [], KeyPath(path, key));
        if key in a.fields {
          SameEverywhere(a.fields[key], b.fields[key], KeyPath(path, key));
        }
      }
      SameFieldsEqual(a, b);
    }
  }

  lemma SameFieldsEqual(a: Tree, b: Tree)
    requires forall key :: Field(a, key) == Field(b, key)
    ensures a == b
  {
    forall key
      ensures key in a.fields <==> key in b.fields
      ensures key in a.fields ==> a.fields[key] == b.fields[key]
    {
      assert Field(a, key) == Field(b, key);
    }
    assert a.fields == b.fields;
  }

  /** With nothing excluded the local tree itself is rebuilt. */
  lemma PushRebuildsAll(a: Tree, b: Tree)
    ensures ApplyPush(b, DiffOf(a, b, [], "")) == a
  {
    PushRebuilds(a, b, [], "");
    SameEverywhere(ApplyPush(b, DiffOf(a, b, [], "")), a, "");
  }

  lemma SameLists(a: Json, b: Json, excluded: seq<string>, path: string)
    requires SameShapes(a, b, excluded, path)
    ensures NoLists(a, excluded, path) <==> NoLists(b, excluded, path)
  {
  }

  /** A list differs from itself; only a file edited by hand has one, as no field of a configuration is a list. */
  lemma ListDiffers()
    ensures var j: Tree := Obj(map["a" := List([])]); DiffOf(j, j, [], "") != map[]
  {
    var j: Tree := Obj(map["a" := List([])]);
    assert DiffAt(j, j, [], "", "a") == Some(Entry(Some(List([])), Some(List([]))));
  }

  // ---------- the code ----------

  /** What the two loops over the keys put down, before empty objects are pruned. */
  function Unpruned(a: Tree, b: Tree, excluded: seq<string>, path: string, key: string): Option<Node>
  {
    if && KeyPath(path, key) !in excluded && key in a.fields && key in b.fields
       && a.fields[key].Obj? && b.fields[key].Obj?
    then
      Some(Sub(DiffOf(a.fields[key], b.fields[key], excluded, KeyPath(path, key))))
    else DiffAt(a, b, excluded, path, key)
  }

  ghost predicate Filled(a: Tree, b: Tree, excluded: seq<string>, path: string, done: set<string>,
                         result: map<string, Node>) {
    forall key ::
      && (key in result <==> key in done && Unpruned(a, b, excluded, path, key).Some?)
      && (key in result ==> Unpruned(a, b, excluded, path, key) == Some(result[key]))
  }

  lemma FilledStep(a: Tree, b: Tree, excluded: seq<string>, path: string, done: set<string>,
                   result: map<string, Node>, key: string)
    requires Filled(a, b, excluded, path, done, result) && key !in done
    ensures Filled(a, b, excluded, path, done + {key},
                   match Unpruned(a, b, excluded, path, key) case None => result case Some(node) => result[key := node])
  {
    hide Unpruned;
  }

  method DiffObjects(a: Tree, b: Tree, excluded: seq<string>, path: string) returns (result: map<string, Node>)
    ensures result == DiffOf(a, b, excluded, path)
    decreases a, 1
  {
    hide DiffOf, KeyPath;
    result := LocalKeys(a, b, excluded, path);
    result := RemoteOnlyKeys(a, b, excluded, path, result);
    result := Prune(a, b, excluded, path, result);
  }

  /** The loop over the local keys. */
  method LocalKeys(a: Tree, b: Tree, excluded: seq<string>, path: string) returns (result: map<string, Node>)
    ensures Filled(a, b, excluded, path, a.fields.Keys, result)
    decreases a, 0
  {
    hide DiffOf, KeyPath, Filled;
    result := map[];
    var todo := a.fields.Keys;
    ghost var done := {};
    NothingFilled(a, b, excluded, path);
    while todo != {}
      invariant todo <= a.fields.Keys && done == a.fields.Keys - todo
      invariant Filled(a, b, excluded, path, done, result)
      decreases |todo|
    {
      var key :| key in todo;
      todo := todo - {key};
      FilledStep(a, b, excluded, path, done, result, key);
      done := done + {key};
      var keyPath := KeyPath(path, key);
      if keyPath !in excluded {
        var x := a.fields[key];
        if key in b.fields {
          var y := b.fields[key];
          if x.Obj? && y.Obj? {
            var sub := DiffObjects(x, y, excluded, keyPath);
            result := result[key := Sub(sub)];
          } else if !(x.Scalar? && x == y) {
            result := result[key := Entry(Some(x), Some(y))];
          }
        } else {
          result := result[key := Entry(Some(x), None)];
        }
      }
    }
    assert done == a.fields.Keys;
  }

  lemma NothingFilled(a: Tree, b: Tree, excluded: seq<string>, path: string)
    ensures Filled(a, b, excluded, path, {}, map[])
  {
  }

  /** The loop over the keys only the remote has. */
  method RemoteOnlyKeys(a: Tree, b: Tree, excluded: seq<string>, path: string, first: map<string, Node>)
    returns (result: map<string, Node>)
    requires Filled(a, b, excluded, path, a.fields.Keys, first)
    ensures Filled(a, b, excluded, path, a.fields.Keys + b.fields.Keys, result)
  {
    hide DiffOf, DiffAt, KeyPath, Filled, Unpruned;
    result := first;
    var todo := b.fields.Keys;
    ghost var done := a.fields.Keys;
    while todo != {}
      invariant todo <= b.fields.Keys
      invariant forall k :: k in done <==> k in a.fields || (k in b.fields && k !in todo)
      invariant Filled(a, b, excluded, path, done, result)
      decreases |todo|
    {
      var key :| key in todo;
      todo := todo - {key};
      if key !in a.fields {
        FilledStep(a, b, excluded, path, done, result, key);
        RemoteOnly(a, b, excluded, path, key);
        if KeyPath(path, key) !in excluded {
          result := result[key := Entry(None, Some(b.fields[key]))];
        }
        done := done + {key};
      }
    }
    assert done == a.fields.Keys + b.fields.Keys;
  }

  lemma RemoteOnly(a: Tree, b: Tree, excluded: seq<string>, path: string, key: string)
    requires key !in a.fields && key in b.fields
    ensures Unpruned(a, b, excluded, path, key) ==
              if KeyPath(path, key) in excluded then None else Some(Entry(None, Some(b.fields[key])))
  {
  }

  /** The loop that deletes empty objects. */
  method Prune(a: Tree, b: Tree, excluded: seq<string>, path: string, first: map<string, Node>)
    returns (result: map<string, Node>)
    requires Filled(a, b, excluded, path, a.fields.Keys + b.fields.Keys, first)
    ensures result == DiffOf(a, b, excluded, path)
  {
    result := first;
    var todo := first.Keys;
    while todo != {}
      invariant todo <= first.Keys
      invariant forall key :: key in result <==> key in first && (key in todo || first[key] != Sub(map[]))
      invariant forall key :: key in result ==> result[key] == first[key]
      decreases |todo|
    {
      var key :| key in todo;
      todo := todo - {key};
      if result[key].Sub? && |result[key].entries| == 0 {
        result := result - {key};
      }
    }
    PrunedIsDiff(a, b, excluded, path, first, result);
  }

  lemma PrunedIsDiff(a: Tree, b: Tree, excluded: seq<string>, path: string, first: map<string, Node>,
                     result: map<string, Node>)
    requires Filled(a, b, excluded, path, a.fields.Keys + b.fields.Keys, first)
    requires forall key :: key in result <==> key in first && first[key] != Sub(map[])
    requires forall key :: key in result ==> result[key] == first[key]
    ensures result == DiffOf(a, b, excluded, path)
  {
    hide DiffOf, KeyPath;
    forall key
      ensures key in result <==> key in DiffOf(a, b, excluded, path)
      ensures key in result ==> result[key] == DiffOf(a, b, excluded, path)[key]
    {
      var d := DiffAt(a, b, excluded, path, key);
      assert key in DiffOf(a, b, excluded, path) <==> d.Some?;
    }
  }

  // ---------- the other side ----------

  /** The difference the other way round. */
  function Swapped(d: map<string, Node>): map<string, Node>
  {
    map key | key in d :: SwappedNode(d[key])
  }

  function SwappedNode(n: Node): Node
  {
    match n
    case Entry(push, pull) => Entry(pull, push)
    case Sub(entries) => Sub(map key | key in entries :: SwappedNode(entries[key]))
  }

  lemma SwapsSub(entries: map<string, Node>)
    ensures SwappedNode(Sub(entries)) == Sub(Swapped(entries))
  {
  }

  /** What one side pushes the other pulls. */
  lemma {:induction false} DiffSwaps(a: Tree, b: Tree, excluded: seq<string>, path: string)
    ensures DiffOf(b, a, excluded, path) == Swapped(DiffOf(a, b, excluded, path))
    decreases a
  {
    hide DiffOf, KeyPath;
    forall key
      ensures DiffAt(b, a, excluded, path, key) ==
                match DiffAt(a, b, excluded, path, key) case None => None case Some(n) => Some(SwappedNode(n))
    {
      if key in a.fields && key in b.fields && a.fields[key].Obj? && b.fields[key].Obj? {
        DiffSwaps(a.fields[key], b.fields[key], excluded, KeyPath(path, key));
        SwapEmpty(DiffOf(a.fields[key], b.fields[key], excluded, KeyPath(path, key)));
        SwapsSub(DiffOf(a.fields[key], b.fields[key], excluded, KeyPath(path, key)));
      }
    }
    var d, e := DiffOf(a, b, excluded, path), DiffOf(b, a, excluded, path);
    hide DiffAt;
    forall key
      ensures key in e <==> key in d
      ensures key in e ==> e[key] == SwappedNode(d[key])
    {
      assert key in e <==> DiffAt(b, a, excluded, path, key).Some?;
      assert key in d <==> DiffAt(a, b, excluded, path, key).Some?;
    }
    assert e == Swapped(d);
  }

  lemma SwapEmpty(d: map<string, Node>)
    ensures Swapped(d) == map[] <==> d == map[]
  {
    if d != map[] {
      var key :| key in d;
      assert key in Swapped(d);
    }
  }

  /** So applying the pull sides to the local tree rebuilds the remote one wherever nothing is excluded. */
  lemma PullRebuilds(a: Tree, b: Tree, excluded: seq<string>, path: string)
    ensures SameShapes(ApplyPush(a, Swapped(DiffOf(a, b, excluded, path))), b, excluded, path)
  {
    DiffSwaps(a, b, excluded, path);
    PushRebuilds(b, a, excluded, path);
  }
}
