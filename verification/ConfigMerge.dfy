/** Override of a configuration tree by another: the recursion only changes keys that exist, except
    for seven special keys whose objects are replaced as a whole. The tree operations are those of
    the JSON library: asking a value that is neither null nor an object for its members is an error. */
module ConfigMerge {
  import opened Basics

  datatype Json = Null | Leaf(text: string) | Array(items: seq<Json>) | Object(members: map<string, Json>)

  datatype Result = Ok(value: Json) | LogicError

  predicate IsSpecial(key: string) {
    key == "timeframes" || key == "tickbars" || key == "analysers" || key == "contexts"
    || key == "sessions" || key == "markets" || key == "handlers"
  }

  predicate HasMembers(j: Json) { j.Null? || j.Object? }

  function Members(j: Json): map<string, Json>
    requires HasMembers(j)
  {
    if j.Null? then map[] else j.members
  }

  /** `a[key]`, which creates a null when the key is missing. */
  function At(m: map<string, Json>, key: string): Json {
    if key in m then m[key] else Null
  }

  // ---- Specification ----

  /** The value under a special key: all of `b`, but a null that gains nothing stays null. */
  function Joined(a: Json, b: Json): Json
    requires HasMembers(a) && HasMembers(b)
  {
    if a.Null? && Members(b) == map[] then Null else Object(Members(b))
  }

  /** The update of the members `m` under one key of `b`, holding `y` there, raises no error. */
  predicate WorksAt(m: map<string, Json>, key: string, y: Json)
    decreases y, 1
  {
    if IsSpecial(key) then HasMembers(At(m, key)) && HasMembers(y)
    else key in m ==> Works(m[key], y)
  }

  /** No step of the update raises an error. */
  predicate Works(a: Json, b: Json)
    decreases b, 0
  {
    a.Object? && b.Object? ==> forall key :: key in b.members ==> WorksAt(a.members, key, b.members[key])
  }

  /** The value of one key after the update. */
  function Value(m: map<string, Json>, key: string, y: Json): Json
    requires WorksAt(m, key, y) && (IsSpecial(key) || key in m)
    decreases y, 1
  {
    if IsSpecial(key) then Joined(At(m, key), y)
    else if m[key].Object? && y.Object? then Updated(m[key], y)
    else y
  }

  function SpecialKeys(b: map<string, Json>): set<string> {
    set key | key in b && IsSpecial(key)
  }

  function Updated(a: Json, b: Json): (r: Json)
    requires Works(a, b)
    ensures a.Object? <==> r.Object?
    decreases b, 0
  {
    if !a.Object? || !b.Object? then a
    else
      Object(map key | key in a.members.Keys + SpecialKeys(b.members) ::
               if key in b.members then Value(a.members, key, b.members[key]) else a.members[key])
  }

  // ---- The two functions of the source ----

  /** Copies every member of `b` into `a`, then removes from `a` what `b` does not have. */
  method JoinRightToLeft(a: Json, b: Json) returns (r: Result)
    ensures r == if HasMembers(a) && HasMembers(b) then Ok(Joined(a, b)) else LogicError
  {
    if !HasMembers(a) || !HasMembers(b) { return LogicError; }
    var into, from, isNull := Members(a), Members(b), a.Null?;
    var names := from.Keys;
    while names != {}
      invariant names <= from.Keys
      invariant isNull <==> a.Null? && names == from.Keys
      invariant into.Keys == Members(a).Keys + (from.Keys - names)
      invariant forall key :: key in from.Keys - names ==> into[key] == from[key]
    {
      var key :| key in names;
      into, isNull := into[key := from[key]], false;
      names := names - {key};
    }
    names := into.Keys;
    while names != {}
      invariant names <= into.Keys == names + from.Keys
      invariant forall key :: key in from ==> into[key] == from[key]
    {
      var key :| key in names;
      names := names - {key};
      if key !in from {
        into := into - {key};
      }
    }
    assert into == from;
    r := Ok(if isNull then Null else Object(into));
  }

  /** Recursively copies the values of `b` into `a`. */
  method Update(a: Json, b: Json) returns (r: Result)
    ensures r == if Works(a, b) then Ok(Updated(a, b)) else LogicError
    decreases b
  {
    if !a.Object? || !b.Object? { return Ok(a); }
    var into := a.members;
    var names := b.members.Keys;
    while names != {}
      invariant names <= b.members.Keys
      invariant forall key :: key in b.members.Keys - names ==> WorksAt(a.members, key, b.members[key])
      invariant into.Keys == a.members.Keys + (SpecialKeys(b.members) - names)
      invariant forall key :: key in into.Keys - (b.members.Keys - names) ==> into[key] == a.members[key]
      invariant forall key :: key in into.Keys * (b.members.Keys - names) ==>
                               into[key] == Value(a.members, key, b.members[key])
    {
      var key :| key in names;
      names := names - {key};
      assert key in into <==> key in a.members;
      if IsSpecial(key) {
        var joined := JoinRightToLeft(At(into, key), b.members[key]);
        if joined.LogicError? { return LogicError; }
        into := into[key := joined.value];
      } else if key in into {
        if into[key].Object? && b.members[key].Object? {
          var updated := Update(into[key], b.members[key]);
          if updated.LogicError? { return LogicError; }
          into := into[key := updated.value];
        } else {
          into := into[key := b.members[key]];
        }
      }
    }
    assert Works(a, b);
    assert into == Updated(a, b).members;
    r := Ok(Object(into));
  }

  // ---- Idempotence ----

  /** At every level the recursion can reach, a special key holds an object or null. */
  predicate SpecialsHoldObjects(j: Json) {
    j.Object? ==>
      forall key :: key in j.members ==>
        if IsSpecial(key) then HasMembers(j.members[key]) else SpecialsHoldObjects(j.members[key])
  }

  /** `b` only plants, in place of something that is not an object, objects whose special keys hold
      objects. */
  predicate Repeatable(a: Json, b: Json)
    decreases b
  {
    a.Object? && b.Object? ==>
      forall key :: key in b.members && key in a.members && !IsSpecial(key) ==>
        if a.members[key].Object? then Repeatable(a.members[key], b.members[key])
        else SpecialsHoldObjects(b.members[key])
  }

  /** A tree updated by itself: it works exactly when its special keys hold objects, and changes
      nothing. */
  lemma {:induction false} SelfUpdateIff(a: Json)
    ensures Works(a, a) <==> SpecialsHoldObjects(a)
    ensures Works(a, a) ==> Updated(a, a) == a
    decreases a
  {
    if a.Object? {
      forall key | key in a.members
        ensures WorksAt(a.members, key, a.members[key]) <==>
                if IsSpecial(key) then HasMembers(a.members[key]) else SpecialsHoldObjects(a.members[key])
        ensures WorksAt(a.members, key, a.members[key]) ==>
                  Value(a.members, key, a.members[key]) == a.members[key]
      {
        SelfUpdateIff(a.members[key]);
      }
      if Works(a, a) {
        assert Updated(a, a).members == a.members;
      }
    }
  }

  /** One key of the second update: special keys always work, the others as the condition says. */
  lemma SecondUpdateAt(a: Json, b: Json, key: string)
    requires a.Object? && b.Object? && Works(a, b)
    requires key in b.members && key in Updated(a, b).members
    requires !IsSpecial(key) && a.members[key].Object? && b.members[key].Object? ==>
               && Works(a.members[key], b.members[key])
               && (Works(Updated(a.members[key], b.members[key]), b.members[key])
                   <==> Repeatable(a.members[key], b.members[key]))
               && (Repeatable(a.members[key], b.members[key]) ==>
                     Updated(Updated(a.members[key], b.members[key]), b.members[key])
                     == Updated(a.members[key], b.members[key]))
    ensures var m := Updated(a, b).members;
            && (WorksAt(m, key, b.members[key]) <==>
                (IsSpecial(key) ||
                 if a.members[key].Object? then Repeatable(a.members[key], b.members[key])
                 else SpecialsHoldObjects(b.members[key])))
            && (WorksAt(m, key, b.members[key]) ==> Value(m, key, b.members[key]) == m[key])
  {
    var m := Updated(a, b).members;
    assert WorksAt(a.members, key, b.members[key]);
    assert m[key] == Value(a.members, key, b.members[key]);
    SelfUpdateIff(b.members[key]);
  }

  /** Applying the same override twice: the second time works exactly when the override is
      repeatable, and then it changes nothing. */
  lemma {:induction false} UpdateIsIdempotentIff(a: Json, b: Json)
    requires Works(a, b)
    ensures Works(Updated(a, b), b) <==> Repeatable(a, b)
    ensures Works(Updated(a, b), b) ==> Updated(Updated(a, b), b) == Updated(a, b)
    decreases b
  {
    if a.Object? && b.Object? {
      var once := Updated(a, b);
      forall key | key in b.members && key in once.members
        ensures WorksAt(once.members, key, b.members[key]) <==>
                (IsSpecial(key) ||
                 if a.members[key].Object? then Repeatable(a.members[key], b.members[key])
                 else SpecialsHoldObjects(b.members[key]))
        ensures WorksAt(once.members, key, b.members[key]) ==>
                  Value(once.members, key, b.members[key]) == once.members[key]
      {
        if !IsSpecial(key) && a.members[key].Object? {
          assert WorksAt(a.members, key, b.members[key]);
          UpdateIsIdempotentIff(a.members[key], b.members[key]);
        }
        SecondUpdateAt(a, b, key);
      }
      assert once.members.Keys == a.members.Keys + SpecialKeys(b.members);
      if Works(once, b) {
        assert Updated(once, b).members == once.members;
      }
    }
  }

  /** When the special keys of `b` hold objects at every level, the override is repeatable. */
  lemma {:induction false} SpecialObjectsAreRepeatable(a: Json, b: Json)
    requires SpecialsHoldObjects(b)
    ensures Repeatable(a, b)
    decreases b
  {
    if a.Object? && b.Object? {
      forall key | key in b.members && key in a.members && !IsSpecial(key) && a.members[key].Object?
        ensures Repeatable(a.members[key], b.members[key])
      {
        SpecialObjectsAreRepeatable(a.members[key], b.members[key]);
      }
    }
  }

  /** An override that works once and fails the second time: it plants an object whose `timeframes`
      is not one. */
  lemma SecondUpdateCanFail()
    ensures exists a, b :: Works(a, b) && !Works(Updated(a, b), b)
  {
    var planted := Object(map["timeframes" := Leaf("1m")]);
    var a, b := Object(map["x" := Leaf("")]), Object(map["x" := planted]);
    assert !IsSpecial("x");
    assert Works(a, b);
    assert "timeframes" in planted.members;
    assert !SpecialsHoldObjects(planted);
    assert !Repeatable(a, b) by {
      assert "x" in b.members && "x" in a.members && !a.members["x"].Object?;
    }
    UpdateIsIdempotentIff(a, b);
  }

  // ---- What reaches a path of the tree ----

  function Lookup(j: Json, path: seq<string>): Option<Json> {
    if path == [] then Some(j)
    else if j.Object? && path[0] in j.members then Lookup(j.members[path[0]], path[1..])
    else None
  }

  /** The keys whose object is replaced as a whole. */
  const REPLACED := ["timeframes", "tickbars", "analysers", "contexts", "sessions", "markets", "handlers"]

  predicate NoSpecial(path: seq<string>) { forall key :: key in path ==> key !in REPLACED }

  lemma OrdinaryKey(path: seq<string>)
    requires path != [] && path[0] !in REPLACED
    ensures !IsSpecial(path[0])
  {
    forall i | 0 <= i < |REPLACED| ensures path[0] != REPLACED[i] {
      assert REPLACED[i] in REPLACED;
    }
  }

  /** `b` has objects along the path until one of them lacks the next key. */
  predicate Silent(b: Json, path: seq<string>) {
    b.Object? && path != [] && path[0] !in REPLACED
    && (path[0] in b.members ==> Silent(b.members[path[0]], path[1..]))
  }

  lemma {:induction false} SilentHasNothing(b: Json, path: seq<string>)
    requires Silent(b, path)
    ensures Lookup(b, path) == None
  {
    if path[0] in b.members { SilentHasNothing(b.members[path[0]], path[1..]); }
  }

  /** Where `b` says nothing, the result has what `a` has, and lacks what `a` lacks. */
  lemma {:induction false} SilenceKeeps(a: Json, b: Json, path: seq<string>)
    requires Works(a, b) && Silent(b, path)
    ensures Lookup(Updated(a, b), path) == Lookup(a, path)
    decreases b
  {
    if a.Object? && path[0] in a.members && path[0] in b.members {
      assert WorksAt(a.members, path[0], b.members[path[0]]);
      if a.members[path[0]].Object? {
        SilenceKeeps(a.members[path[0]], b.members[path[0]], path[1..]);
      } else {
        SilentHasNothing(b.members[path[0]], path[1..]);
      }
    }
  }

  /** No key outside the special ones is added by the recursion: along a path of ordinary keys where the tree has
      objects but not the next key, the result has nothing either, whatever the override has there and below. */
  lemma {:induction false} NothingAdded(a: Json, b: Json, path: seq<string>)
    requires Works(a, b) && Silent(a, path)
    ensures Lookup(Updated(a, b), path) == None
    decreases b
  {
    var key := path[0];
    OrdinaryKey(path);
    if b.Object? && key in a.members {
      if key in b.members {
        assert WorksAt(a.members, key, b.members[key]);
        if b.members[key].Object? {
          NothingAdded(a.members[key], b.members[key], path[1..]);
        } else {
          assert Updated(a, b).members[key] == b.members[key];
        }
      } else {
        SilentHasNothing(a.members[key], path[1..]);
      }
    } else {
      SilentHasNothing(a, path);
    }
  }

  /** Where both have a value and the path meets no special key, the override wins: as it is, unless
      both are objects, which are then updated in turn. */
  lemma {:induction false} OverrideWins(a: Json, b: Json, path: seq<string>)
    requires Works(a, b) && path != [] && NoSpecial(path)
    requires Lookup(a, path).Some? && Lookup(b, path).Some?
    ensures var x, y := Lookup(a, path).value, Lookup(b, path).value;
            Works(x, y)
            && Lookup(Updated(a, b), path) == Some(if x.Object? && y.Object? then Updated(x, y) else y)
    decreases b
  {
    var key := path[0];
    OrdinaryKey(path);
    assert WorksAt(a.members, key, b.members[key]);
    assert Updated(a, b).members[key] == Value(a.members, key, b.members[key]);
    if |path| > 1 {
      OverrideWins(a.members[key], b.members[key], path[1..]);
    } else {
      assert path[1..] == [];
    }
  }

  /** Nothing is invented: every leaf and every array of the result stands at the same path of `a`
      or of `b`. */
  lemma {:induction false} LeavesComeFromEither(a: Json, b: Json, path: seq<string>)
    requires Works(a, b)
    requires Lookup(Updated(a, b), path).Some? && !HasMembers(Lookup(Updated(a, b), path).value)
    ensures Lookup(Updated(a, b), path) == Lookup(a, path) || Lookup(Updated(a, b), path) == Lookup(b, path)
    decreases b
  {
    if a.Object? && b.Object? && path != [] && path[0] in b.members {
      var key := path[0];
      assert WorksAt(a.members, key, b.members[key]);
      assert Updated(a, b).members[key] == Value(a.members, key, b.members[key]);
      if !IsSpecial(key) && a.members[key].Object? && b.members[key].Object? {
        LeavesComeFromEither(a.members[key], b.members[key], path[1..]);
      }
    }
  }

  /** A special key takes the place of what was there: where a path of ordinary keys holds objects in both trees
      and the override then has a special key, below it the result is the override alone, and what the override
      lacks is gone. */
  lemma {:induction false} SpecialKeyIsReplaced(a: Json, b: Json, path: seq<string>, key: string, below: seq<string>)
    requires key in REPLACED
    requires Works(a, b) && NoSpecial(path) && below != []
    requires Lookup(a, path).Some? && Lookup(a, path).value.Object?
    requires Lookup(b, path).Some? && Lookup(b, path).value.Object? && key in Lookup(b, path).value.members
    ensures Lookup(Updated(a, b), path + [key] + below) == Lookup(b, path + [key] + below)
    decreases b
  {
    var all := path + [key] + below;
    if path == [] {
      assert all[0] == key && all[1..] == below;
      assert WorksAt(a.members, key, b.members[key]);
      assert Updated(a, b).members[key] == Joined(At(a.members, key), b.members[key]);
    } else {
      var first := path[0];
      OrdinaryKey(path);
      assert all[0] == first && all[1..] == path[1..] + [key] + below;
      assert WorksAt(a.members, first, b.members[first]);
      ObjectBelow(a, path);
      ObjectBelow(b, path);
      assert Updated(a, b).members[first] == Updated(a.members[first], b.members[first]);
      SpecialKeyIsReplaced(a.members[first], b.members[first], path[1..], key, below);
    }
  }

  lemma ObjectBelow(j: Json, path: seq<string>)
    requires path != [] && Lookup(j, path).Some? && Lookup(j, path).value.Object?
    ensures j.Object? && path[0] in j.members && j.members[path[0]].Object?
  {
    if |path| > 1 { assert path[1..] != []; } else { assert path[1..] == []; }
  }

  /** The entries of an overridden object of timeframes: those of the override and no others. */
  lemma OldTimeframesAreGone()
    ensures var a := Object(map["timeframes" := Object(map["1m" := Leaf("x"), "5m" := Leaf("y")])]);
            var b := Object(map["timeframes" := Object(map["5m" := Leaf("z")])]);
            Works(a, b)
            && Lookup(Updated(a, b), ["timeframes", "1m"]) == None
            && Lookup(Updated(a, b), ["timeframes", "5m"]) == Some(Leaf("z"))
  {
    var a := Object(map["timeframes" := Object(map["1m" := Leaf("x"), "5m" := Leaf("y")])]);
    var b := Object(map["timeframes" := Object(map["5m" := Leaf("z")])]);
    assert IsSpecial("timeframes") && Works(a, b);
    hide Updated, Works;
    assert [] + ["timeframes"] + ["1m"] == ["timeframes", "1m"] && [] + ["timeframes"] + ["5m"] == ["timeframes", "5m"];
    SpecialKeyIsReplaced(a, b, [], "timeframes", ["1m"]);
    SpecialKeyIsReplaced(a, b, [], "timeframes", ["5m"]);
    assert ["timeframes", "1m"][1..] == ["1m"] && ["timeframes", "5m"][1..] == ["5m"] && ["1m"][1..] == [] && ["5m"][1..] == [];
  }

  /** A tree that is not an object is not updated, and an override that is not one updates nothing. */
  lemma OnlyObjectsAreUpdated(a: Json, b: Json)
    requires !a.Object? || !b.Object?
    ensures Works(a, b) && Updated(a, b) == a
  {
  }

  // ---- When an update raises an error ----

  /** At the end of a path of ordinary keys that holds objects in both trees, the override has a special key, and
      one of the trees has a leaf or an array there. */
  predicate FailsAt(a: Json, b: Json, path: seq<string>, key: string) {
    && NoSpecial(path) && key in REPLACED
    && Lookup(a, path).Some? && Lookup(a, path).value.Object?
    && Lookup(b, path).Some? && Lookup(b, path).value.Object?
    && var m, n := Lookup(a, path).value.members, Lookup(b, path).value.members;
       key in n && (!HasMembers(n[key]) || (key in m && !HasMembers(m[key])))
  }

  lemma {:induction false} FailureIsError(a: Json, b: Json, path: seq<string>, key: string)
    requires FailsAt(a, b, path, key)
    ensures !Works(a, b)
    decreases |path|
  {
    if path == [] {
      assert !WorksAt(a.members, key, b.members[key]);
    } else {
      var first := path[0];
      OrdinaryKey(path);
      ObjectBelow(a, path);
      ObjectBelow(b, path);
      FailureIsError(a.members[first], b.members[first], path[1..], key);
      assert !WorksAt(a.members, first, b.members[first]);
    }
  }

  lemma {:induction false} FindFailure(a: Json, b: Json) returns (path: seq<string>, key: string)
    requires !Works(a, b)
    ensures FailsAt(a, b, path, key)
    decreases b
  {
    var first :| first in b.members && !WorksAt(a.members, first, b.members[first]);
    if IsSpecial(first) {
      path, key := [], first;
    } else {
      var rest;
      rest, key := FindFailure(a.members[first], b.members[first]);
      path := [first] + rest;
      assert path[1..] == rest;
    }
  }

  /** An update works iff there is no such place. */
  lemma WorksIff(a: Json, b: Json)
    ensures Works(a, b) <==> forall path: seq<string>, key: string :: !FailsAt(a, b, path, key)
  {
    if Works(a, b) {
      forall path: seq<string>, key: string | FailsAt(a, b, path, key) ensures false {
        FailureIsError(a, b, path, key);
      }
    } else {
      var path, key := FindFailure(a, b);
    }
  }
}
