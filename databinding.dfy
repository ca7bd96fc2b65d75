/**
 * The binding between a model object and a flat array of doubles used by the
 * gradient-descent optimiser: `modelToArray` flattens the model's Double and
 * vector fields in declaration order, `arrayToModel` walks the same fields
 * with a cursor and writes values read from the array back into them.
 *
 * Reflection over the model's declared fields is replaced by an explicit
 * sequence of field values; a field's type is the constructor of its value.
 */
module DataBinding {
  import opened Wrappers

  /** The value held by one declared field of the model. */
  datatype Value =
    | Scalar(x: real)
    | Vec2(x: real, y: real)
    | Vec3(x: real, y: real, z: real)
    | Vec4(x: real, y: real, z: real, w: real)
      /** A field of any other type; `tag` stands for whatever it holds. */
    | Other(tag: int)

  /** The declared type of a field. */
  datatype FieldType = DoubleType | Vector2Type | Vector3Type | Vector4Type | OtherType

  function TypeOf(v: Value): FieldType
  {
    match v
    case Scalar(_) => DoubleType
    case Vec2(_, _) => Vector2Type
    case Vec3(_, _, _) => Vector3Type
    case Vec4(_, _, _, _) => Vector4Type
    case Other(_) => OtherType
  }

  /** Two field lists declare the same fields: same count, same type at each position. */
  predicate SameLayout(fs: seq<Value>, gs: seq<Value>)
  {
    |fs| == |gs| && forall k :: 0 <= k < |fs| ==> TypeOf(fs[k]) == TypeOf(gs[k])
  }

  /** The number of doubles a field contributes to the flat array. */
  function Arity(v: Value): nat
  {
    match v
    case Scalar(_) => 1
    case Vec2(_, _) => 2
    case Vec3(_, _, _) => 3
    case Vec4(_, _, _, _) => 4
    case Other(_) => 0
  }

  /** A field's doubles in x, y, z, w order. */
  function Components(v: Value): (r: seq<real>)
    ensures |r| == Arity(v)
  {
    match v
    case Scalar(x) => [x]
    case Vec2(x, y) => [x, y]
    case Vec3(x, y, z) => [x, y, z]
    case Vec4(x, y, z, w) => [x, y, z, w]
    case Other(_) => []
  }

  /** Two bound values of one type with the same components are the same value. */
  lemma ComponentsDetermineValue(a: Value, b: Value)
    requires TypeOf(a) == TypeOf(b) && !a.Other? && Components(a) == Components(b)
    ensures a == b
  {
    assert Components(a)[0] == Components(b)[0];
    match a
    case Scalar(_) =>
    case Vec2(_, _) =>
      assert Components(a)[1] == Components(b)[1];
    case Vec3(_, _, _) =>
      assert Components(a)[1] == Components(b)[1];
      assert Components(a)[2] == Components(b)[2];
    case Vec4(_, _, _, _) =>
      assert Components(a)[1] == Components(b)[1];
      assert Components(a)[2] == Components(b)[2];
      assert Components(a)[3] == Components(b)[3];
  }

  /** The total number of doubles the fields contribute. */
  function Width(fs: seq<Value>): nat
  {
    if |fs| == 0 then 0 else Arity(fs[0]) + Width(fs[1..])
  }

  // ---------------------------------------------------------------------------
  // modelToArray

  /** The flat array of a model: each field's components, fields in declaration order. */
  function Flatten(fs: seq<Value>): seq<real>
  {
    if |fs| == 0 then [] else Components(fs[0]) + Flatten(fs[1..])
  }

  /** The flat array is as long as the fields' arities add up to. */
  lemma {:induction false} FlattenLength(fs: seq<Value>)
    ensures |Flatten(fs)| == Width(fs)
  {
    if |fs| > 0 {
      FlattenLength(fs[1..]);
    }
  }

  /** Flattening distributes over concatenation of field lists. */
  lemma {:induction false} FlattenAppend(fs: seq<Value>, gs: seq<Value>)
    ensures Flatten(fs + gs) == Flatten(fs) + Flatten(gs)
    ensures Width(fs + gs) == Width(fs) + Width(gs)
  {
    if |fs| == 0 {
      assert fs + gs == gs;
    } else {
      assert (fs + gs)[1..] == fs[1..] + gs;
      FlattenAppend(fs[1..], gs);
    }
  }

  /** Declaring one more field appends its components to the flat array. */
  lemma FlattenSnoc(fs: seq<Value>, v: Value)
    ensures Flatten(fs + [v]) == Flatten(fs) + Components(v)
  {
    FlattenAppend(fs, [v]);
    assert [v][1..] == [];
  }

  /**
   * Field `k` occupies the `Arity(fs[k])` slots that start after the slots
   * of the fields declared before it, and holds its components there in
   * x, y, z, w order; fields of other types occupy no slot.
   */
  lemma FlattenAt(fs: seq<Value>, k: nat)
    requires k < |fs|
    ensures var start := Width(fs[..k]);
            start + Arity(fs[k]) <= |Flatten(fs)| &&
            Flatten(fs)[start..start + Arity(fs[k])] == Components(fs[k])
  {
    var before, field, after := fs[..k], [fs[k]], fs[k + 1..];
    assert fs == before + (field + after);
    assert Flatten(field) == Components(fs[k]) by {
      assert field[1..] == [];
    }
    assert Flatten(field + after) == Components(fs[k]) + Flatten(after) by {
      FlattenAppend(field, after);
    }
    assert Flatten(fs) == Flatten(before) + (Components(fs[k]) + Flatten(after)) by {
      FlattenAppend(before, field + after);
    }
    FlattenLength(before);
  }

  /** A field of another type contributes nothing to the flat array. */
  lemma {:induction false} FlattenSkipsOther(fs: seq<Value>, tag: int, gs: seq<Value>)
    ensures Flatten(fs + [Other(tag)] + gs) == Flatten(fs + gs)
  {
    var other := [Other(tag)];
    assert Flatten(other) == [] by {
      assert other[1..] == [];
    }
    assert Flatten(fs + other) == Flatten(fs) by {
      FlattenAppend(fs, other);
    }
    FlattenAppend(fs + other, gs);
    FlattenAppend(fs, gs);
  }

  /** A model: the current values of its declared fields, in declaration order. */
  class Model {
    var fields: seq<Value>

    constructor (fields: seq<Value>)
      ensures this.fields == fields
    {
      this.fields := fields;
    }
  }

  /**
   * `modelToArray`: appends each Double field's value and each vector
   * field's components, field by field; fields of other types are skipped.
   * It only reads the model.
   */
  method ModelToArray(model: Model) returns (doubles: seq<real>)
    ensures doubles == Flatten(model.fields)
  {
    doubles := [];
    for i := 0 to |model.fields|
      invariant doubles == Flatten(model.fields[..i])
    {
      var field := model.fields[i];
      ghost var before := doubles;
      match field {
        case Scalar(x) =>
          doubles := doubles + [x];
        case Vec2(x, y) =>
          doubles := doubles + [x];
          doubles := doubles + [y];
        case Vec3(x, y, z) =>
          doubles := doubles + [x];
          doubles := doubles + [y];
          doubles := doubles + [z];
        case Vec4(x, y, z, w) =>
          doubles := doubles + [x];
          doubles := doubles + [y];
          doubles := doubles + [z];
          doubles := doubles + [w];
        case Other(_) =>
      }
      assert doubles == before + Components(field);
      assert model.fields[..i + 1] == model.fields[..i] + [field];
      FlattenSnoc(model.fields[..i], field);
    }
    assert model.fields[..|model.fields|] == model.fields;
  }

  // ---------------------------------------------------------------------------
  // arrayToModel

  /** How `arrayToModel` ends: normally, or with an array index out of bounds. */
  datatype Outcome = Completed | IndexOutOfBounds

  /** The cursor advance after a Vector4 field, as the code is written. */
  const SourceVector4Step: nat := 3

  /** The cursor advance after a Vector4 field that keeps it in step with `modelToArray`. */
  const CorrectedVector4Step: nat := 4

  /** The cursor advance after a field, with `vector4Step` after a Vector4 field. */
  function Advance(v: Value, vector4Step: nat): nat
  {
    match v
    case Scalar(_) => 1
    case Vec2(_, _) => 2
    case Vec3(_, _, _) => 3
    case Vec4(_, _, _, _) => vector4Step
    case Other(_) => 0
  }

  /**
   * The new value of field `v` read from `data` at cursor `at`: `None` when a
   * component index falls outside `data`; a field of another type is kept.
   */
  function Read(data: seq<real>, at: nat, v: Value): Option<Value>
  {
    match v
    case Scalar(_) =>
      if at < |data| then Some(Scalar(data[at])) else None
    case Vec2(_, _) =>
      if at + 1 < |data| then Some(Vec2(data[at], data[at + 1])) else None
    case Vec3(_, _, _) =>
      if at + 2 < |data| then Some(Vec3(data[at], data[at + 1], data[at + 2])) else None
    case Vec4(_, _, _, _) =>
      if at + 3 < |data| then Some(Vec4(data[at], data[at + 1], data[at + 2], data[at + 3])) else None
    case Other(_) => Some(v)
  }

  /**
   * A read succeeds exactly when the field is of another type or all its
   * component indices lie inside `data`; it keeps the field's type, keeps a
   * field of another type as it is, and takes a Double or vector field's
   * components, in order, from the slots starting at the cursor.
   */
  lemma ReadSpec(data: seq<real>, at: nat, v: Value)
    ensures var r := Read(data, at, v);
            (r.Some? <==> v.Other? || at + Arity(v) <= |data|) &&
            (r.Some? ==>
               TypeOf(r.value) == TypeOf(v) && (v.Other? ==> r.value == v) &&
               (!v.Other? ==> Components(r.value) == data[at..at + Arity(v)]))
  {
  }

  /**
   * The fields after `arrayToModel` starts at cursor `at`: each field in turn
   * is replaced by the value read at the cursor, which then advances; at the
   * first read that falls outside `data` the walk stops and that field and
   * every later one keep their values.
   */
  function Unflatten(data: seq<real>, fs: seq<Value>, at: nat, vector4Step: nat): seq<Value>
    decreases |fs|
  {
    if |fs| == 0 then []
    else match Read(data, at, fs[0])
      case None => fs
      case Some(v) => [v] + Unflatten(data, fs[1..], at + Advance(fs[0], vector4Step), vector4Step)
  }

  /** `arrayToModel` from cursor `at` completes without an index error. */
  predicate Fits(data: seq<real>, fs: seq<Value>, at: nat, vector4Step: nat)
    decreases |fs|
  {
    |fs| == 0 ||
    (Read(data, at, fs[0]).Some? && Fits(data, fs[1..], at + Advance(fs[0], vector4Step), vector4Step))
  }

  /** The cursor when the walk from `at` reaches field `k`. */
  function Cursor(fs: seq<Value>, at: nat, vector4Step: nat, k: nat): nat
    requires k <= |fs|
    decreases k
  {
    if k == 0 then at else Cursor(fs[1..], at + Advance(fs[0], vector4Step), vector4Step, k - 1)
  }

  /**
   * `arrayToModel`: walks the fields with a cursor starting at 0, replacing
   * each Double and vector field by the value read at the cursor and
   * advancing it by 1, 2, 3 and (as written) 3 for a Vector4; fields of
   * other types are left alone. An out-of-bounds read ends the call with the
   * fields before it already updated.
   */
  method ArrayToModel(data: seq<real>, model: Model) returns (outcome: Outcome)
    modifies model
    ensures model.fields == Unflatten(data, old(model.fields), 0, SourceVector4Step)
    ensures outcome == Completed <==> Fits(data, old(model.fields), 0, SourceVector4Step)
  {
    ghost var initial := model.fields;
    var fields := model.fields;
    var index: nat := 0;
    var i := 0;
    while i < |fields|
      invariant |fields| == |initial|
      invariant Walked(data, initial, fields, i, index)
    {
      var next, after := SetField(data, index, fields[i]);
      if next.None? {
        WalkStops(data, initial, fields, i, index);
        model.fields := fields;
        return IndexOutOfBounds;
      }
      WalkSteps(data, initial, fields, i, index, next.value);
      fields := fields[i := next.value];
      index := after;
      i := i + 1;
    }
    WalkEnds(data, initial, fields, i, index);
    model.fields := fields;
    return Completed;
  }

  /**
   * One branch of `arrayToModel`'s field dispatch: the field's new value read
   * at cursor `index`, or `None` where the array access would be out of
   * bounds, and the advanced cursor, which moves on by 3 after a Vector4.
   */
  method SetField(data: seq<real>, index: nat, field: Value) returns (next: Option<Value>, after: nat)
    ensures next == Read(data, index, field)
    ensures after == index + Advance(field, SourceVector4Step)
  {
    match field {
      case Scalar(_) =>
        if |data| <= index {
          return None, index + 1;
        }
        next := Some(Scalar(data[index]));
        after := index + 1;
      case Vec2(_, _) =>
        if |data| <= index + 1 {
          return None, index + 2;
        }
        next := Some(Vec2(data[index], data[index + 1]));
        after := index + 2;
      case Vec3(_, _, _) =>
        if |data| <= index + 2 {
          return None, index + 3;
        }
        next := Some(Vec3(data[index], data[index + 1], data[index + 2]));
        after := index + 3;
      case Vec4(_, _, _, _) =>
        if |data| <= index + 3 {
          return None, index + 3;
        }
        next := Some(Vec4(data[index], data[index + 1], data[index + 2], data[index + 3]));
        after := index + 3;
      case Other(_) =>
        next := Some(field);
        after := index;
    }
  }

  /**
   * The loop invariant of `ArrayToModel` after `i` fields with the cursor at
   * `at`: the first `i` fields hold what the walk over `initial` gives them,
   * the rest are untouched, and what remains of the walk decides the outcome.
   */
  ghost predicate Walked(data: seq<real>, initial: seq<Value>, fields: seq<Value>, i: nat, at: nat)
  {
    i <= |fields| == |initial| &&
    fields[i..] == initial[i..] &&
    Unflatten(data, initial, 0, SourceVector4Step) ==
      fields[..i] + Unflatten(data, initial[i..], at, SourceVector4Step) &&
    Fits(data, initial, 0, SourceVector4Step) == Fits(data, initial[i..], at, SourceVector4Step)
  }

  /** A successful read of field `i` keeps the invariant, one field and one advance further. */
  lemma WalkSteps(data: seq<real>, initial: seq<Value>, fields: seq<Value>, i: nat, at: nat, v: Value)
    requires Walked(data, initial, fields, i, at) && i < |fields|
    requires Read(data, at, fields[i]) == Some(v)
    ensures Walked(data, initial, fields[i := v], i + 1, at + Advance(fields[i], SourceVector4Step))
  {
    var rest := initial[i..];
    assert rest[0] == fields[i] && rest[1..] == initial[i + 1..];
    var tail := Unflatten(data, initial[i + 1..], at + Advance(fields[i], SourceVector4Step), SourceVector4Step);
    assert Unflatten(data, rest, at, SourceVector4Step) == [v] + tail;
    assert fields[..i] + ([v] + tail) == fields[i := v][..i + 1] + tail;
  }

  /** A failing read of field `i` leaves the fields as the walk over `initial` ends, incomplete. */
  lemma WalkStops(data: seq<real>, initial: seq<Value>, fields: seq<Value>, i: nat, at: nat)
    requires Walked(data, initial, fields, i, at) && i < |fields|
    requires Read(data, at, fields[i]).None?
    ensures fields == Unflatten(data, initial, 0, SourceVector4Step)
    ensures !Fits(data, initial, 0, SourceVector4Step)
  {
    assert initial[i..][0] == fields[i];
    assert fields[..i] + fields[i..] == fields;
  }

  /** A walk over every field leaves the fields as the walk over `initial` ends, complete. */
  lemma WalkEnds(data: seq<real>, initial: seq<Value>, fields: seq<Value>, i: nat, at: nat)
    requires Walked(data, initial, fields, i, at) && i == |fields|
    ensures fields == Unflatten(data, initial, 0, SourceVector4Step)
    ensures Fits(data, initial, 0, SourceVector4Step)
  {
    assert fields[..i] == fields;
    assert initial[i..] == [];
  }

  // ---------------------------------------------------------------------------
  // Properties of arrayToModel

  /** The cursor moves on by each field's advance, field after field. */
  lemma {:induction false} CursorStep(fs: seq<Value>, at: nat, vector4Step: nat, k: nat)
    requires k < |fs|
    ensures Cursor(fs, at, vector4Step, k + 1) == Cursor(fs, at, vector4Step, k) + Advance(fs[k], vector4Step)
  {
    if k > 0 {
      assert fs[1..][k - 1] == fs[k];
      CursorStep(fs[1..], at + Advance(fs[0], vector4Step), vector4Step, k - 1);
    }
  }

  /** The walk keeps the model's layout and never touches a field of another type. */
  lemma {:induction false} UnflattenShape(data: seq<real>, fs: seq<Value>, at: nat, vector4Step: nat)
    ensures var r := Unflatten(data, fs, at, vector4Step);
            SameLayout(r, fs) &&
            forall k :: 0 <= k < |fs| && fs[k].Other? ==> r[k] == fs[k]
  {
    if |fs| > 0 {
      var next := Read(data, at, fs[0]);
      if next.Some? {
        var rest := Unflatten(data, fs[1..], at + Advance(fs[0], vector4Step), vector4Step);
        UnflattenShape(data, fs[1..], at + Advance(fs[0], vector4Step), vector4Step);
        assert Unflatten(data, fs, at, vector4Step) == [next.value] + rest;
        forall k | 0 < k < |fs|
          ensures ([next.value] + rest)[k] == rest[k - 1] && fs[1..][k - 1] == fs[k]
        {
        }
      }
    }
  }

  /**
   * An out-of-bounds read ends the walk: every field from one whose read at
   * its cursor fails onwards keeps the value it had.
   */
  lemma {:induction false} UnflattenKeepsFromFailure(data: seq<real>, fs: seq<Value>, at: nat, vector4Step: nat, k: nat)
    requires k < |fs| && Read(data, Cursor(fs, at, vector4Step, k), fs[k]).None?
    ensures var r := Unflatten(data, fs, at, vector4Step);
            |r| == |fs| && r[k..] == fs[k..]
  {
    var next := Read(data, at, fs[0]);
    if next.Some? && k > 0 {
      var at' := at + Advance(fs[0], vector4Step);
      var rest := Unflatten(data, fs[1..], at', vector4Step);
      assert Unflatten(data, fs, at, vector4Step) == [next.value] + rest;
      assert fs[1..][k - 1] == fs[k];
      assert Cursor(fs, at, vector4Step, k) == Cursor(fs[1..], at', vector4Step, k - 1);
      UnflattenKeepsFromFailure(data, fs[1..], at', vector4Step, k - 1);
      assert fs[1..][k - 1..] == fs[k..];
      assert ([next.value] + rest)[k..] == rest[k - 1..];
    }
  }

  /**
   * The walk completes exactly when, for every Double or vector field, the
   * last component index it reads from the cursor lies inside `data`.
   */
  lemma {:induction false} FitsIff(data: seq<real>, fs: seq<Value>, at: nat, vector4Step: nat)
    ensures Fits(data, fs, at, vector4Step) <==>
            forall k :: 0 <= k < |fs| && !fs[k].Other? ==> Cursor(fs, at, vector4Step, k) + Arity(fs[k]) <= |data|
  {
    if |fs| > 0 {
      var at' := at + Advance(fs[0], vector4Step);
      FitsIff(data, fs[1..], at', vector4Step);
      forall k | 0 < k < |fs|
        ensures Cursor(fs, at, vector4Step, k) == Cursor(fs[1..], at', vector4Step, k - 1) && fs[1..][k - 1] == fs[k]
      {
      }
      if Fits(data, fs, at, vector4Step) {
        forall k | 0 <= k < |fs| && !fs[k].Other?
          ensures Cursor(fs, at, vector4Step, k) + Arity(fs[k]) <= |data|
        {
          if k > 0 {
            assert !fs[1..][k - 1].Other?;
          }
        }
      } else if Read(data, at, fs[0]).Some? {
        var k' :| 0 <= k' < |fs[1..]| && !fs[1..][k'].Other? &&
                  Cursor(fs[1..], at', vector4Step, k') + Arity(fs[1..][k']) > |data|;
        assert !fs[k' + 1].Other? && Cursor(fs, at, vector4Step, k' + 1) + Arity(fs[k' + 1]) > |data|;
      }
    }
  }

  /** When the walk completes, field `k` holds the value read at its cursor. */
  lemma {:induction false} UnflattenAt(data: seq<real>, fs: seq<Value>, at: nat, vector4Step: nat, k: nat)
    requires Fits(data, fs, at, vector4Step) && k < |fs|
    ensures var next := Read(data, Cursor(fs, at, vector4Step, k), fs[k]);
            next.Some? && |Unflatten(data, fs, at, vector4Step)| == |fs| &&
            Unflatten(data, fs, at, vector4Step)[k] == next.value
  {
    var at' := at + Advance(fs[0], vector4Step);
    var rest := Unflatten(data, fs[1..], at', vector4Step);
    assert Unflatten(data, fs, at, vector4Step) == [Read(data, at, fs[0]).value] + rest;
    assert |rest| == |fs| - 1 by {
      UnflattenShape(data, fs[1..], at', vector4Step);
    }
    if k > 0 {
      assert fs[1..][k - 1] == fs[k];
      assert Cursor(fs, at, vector4Step, k) == Cursor(fs[1..], at', vector4Step, k - 1);
      UnflattenAt(data, fs[1..], at', vector4Step, k - 1);
    }
  }

  /** Fields of other types between two fields leave the cursor where it was. */
  lemma {:induction false} CursorOverOthers(fs: seq<Value>, at: nat, vector4Step: nat, k: nat, j: nat)
    requires k < j <= |fs|
    requires forall m :: k < m < j ==> fs[m].Other?
    ensures Cursor(fs, at, vector4Step, j) == Cursor(fs, at, vector4Step, k + 1)
  {
    if j > k + 1 {
      CursorOverOthers(fs, at, vector4Step, k, j - 1);
      CursorStep(fs, at, vector4Step, j - 1);
    }
  }

  /**
   * As written, the next Double or vector field after a Vector4 field (past
   * any fields of other types, which do not move the cursor) starts reading
   * at that vector's `w` slot: its first component is the Vector4's new `w`.
   */
  lemma FieldAfterVector4(data: seq<real>, fs: seq<Value>, k: nat, j: nat)
    requires Fits(data, fs, 0, SourceVector4Step) && k < j < |fs|
    requires fs[k].Vec4? && !fs[j].Other?
    requires forall m :: k < m < j ==> fs[m].Other?
    ensures var r := Unflatten(data, fs, 0, SourceVector4Step);
            |r| == |fs| && r[k].Vec4? && !r[j].Other? && Components(r[j])[0] == r[k].w
  {
    UnflattenAt(data, fs, 0, SourceVector4Step, k);
    UnflattenAt(data, fs, 0, SourceVector4Step, j);
    CursorStep(fs, 0, SourceVector4Step, k);
    CursorOverOthers(fs, 0, SourceVector4Step, k, j);
    UnflattenShape(data, fs, 0, SourceVector4Step);
    var c := Cursor(fs, 0, SourceVector4Step, k);
    var r := Unflatten(data, fs, 0, SourceVector4Step);
    assert Components(r[k])[3] == data[c + 3];
    assert Components(r[j])[0] == data[c + 3];
  }

  /** Merging a flattened model `fs` into a model `gs` of the same layout. */
  function Merge(fs: seq<Value>, gs: seq<Value>): (r: seq<Value>)
    requires |fs| == |gs|
    ensures |r| == |fs|
    ensures forall k :: 0 <= k < |fs| ==> r[k] == if fs[k].Other? then gs[k] else fs[k]
  {
    if |fs| == 0 then []
    else [if fs[0].Other? then gs[0] else fs[0]] + Merge(fs[1..], gs[1..])
  }

  /** Putting `p` in front of the array moves every read of the walk by `|p|`. */
  lemma {:induction false} UnflattenShift(p: seq<real>, data: seq<real>, gs: seq<Value>, at: nat, shifted: nat, vector4Step: nat)
    requires shifted == |p| + at
    ensures Unflatten(p + data, gs, shifted, vector4Step) == Unflatten(data, gs, at, vector4Step)
    decreases |gs|
  {
    if |gs| > 0 {
      ReadShift(p, data, at, shifted, gs[0]);
      var next := Read(data, at, gs[0]);
      if next.Some? {
        var step := Advance(gs[0], vector4Step);
        var rest := Unflatten(data, gs[1..], at + step, vector4Step);
        assert Unflatten(data, gs, at, vector4Step) == [next.value] + rest;
        UnflattenShift(p, data, gs[1..], at + step, shifted + step, vector4Step);
        assert Unflatten(p + data, gs, shifted, vector4Step) == [next.value] + rest;
      }
    }
  }

  /** Putting `p` in front of the array does not change whether the walk completes. */
  lemma {:induction false} FitsShift(p: seq<real>, data: seq<real>, gs: seq<Value>, at: nat, shifted: nat, vector4Step: nat)
    requires shifted == |p| + at
    ensures Fits(p + data, gs, shifted, vector4Step) == Fits(data, gs, at, vector4Step)
    decreases |gs|
  {
    if |gs| > 0 {
      ReadShift(p, data, at, shifted, gs[0]);
      var step := Advance(gs[0], vector4Step);
      FitsShift(p, data, gs[1..], at + step, shifted + step, vector4Step);
    }
  }

  /** Putting `p` in front of the array moves a field's read by `|p|`. */
  lemma ReadShift(p: seq<real>, data: seq<real>, at: nat, shifted: nat, g: Value)
    requires shifted == |p| + at
    ensures Read(p + data, shifted, g) == Read(data, at, g)
  {
    if at + Arity(g) <= |data| && !g.Other? {
      assert (p + data)[shifted..shifted + Arity(g)] == data[at..at + Arity(g)];
      ComponentsDetermineValue(Read(p + data, shifted, g).value, Read(data, at, g).value);
    }
  }

  /**
   * The walk over `gs` of the flat array of `fs`, a model of the same layout,
   * completes and gives `gs` the values of `fs` on every Double and vector
   * field, provided the cursor advances after each field by its arity.
   */
  lemma {:induction false} UnflattenFlatten(fs: seq<Value>, gs: seq<Value>, vector4Step: nat)
    requires SameLayout(fs, gs)
    requires forall k :: 0 <= k < |fs| ==> Advance(fs[k], vector4Step) == Arity(fs[k])
    ensures Fits(Flatten(fs), gs, 0, vector4Step)
    ensures Unflatten(Flatten(fs), gs, 0, vector4Step) == Merge(fs, gs)
    decreases |fs|
  {
    if |fs| > 0 {
      var head, tail := Components(fs[0]), Flatten(fs[1..]);
      var data := Flatten(fs);
      assert data == [] + head + tail;
      SameLayoutTail(fs, gs);
      forall k | 0 <= k < |fs[1..]|
        ensures Advance(fs[1..][k], vector4Step) == Arity(fs[1..][k])
      {
        assert fs[1..][k] == fs[k + 1];
      }
      UnflattenFlatten(fs[1..], gs[1..], vector4Step);
      assert TypeOf(fs[0]) == TypeOf(gs[0]);
      ReadFlattened([], fs[0], tail, gs[0]);
      UnflattenShift(head, tail, gs[1..], 0, Advance(gs[0], vector4Step), vector4Step);
      FitsShift(head, tail, gs[1..], 0, Advance(gs[0], vector4Step), vector4Step);
      assert Merge(fs, gs) == [if fs[0].Other? then gs[0] else fs[0]] + Merge(fs[1..], gs[1..]);
    } else {
      assert gs == [];
    }
  }

  /** Dropping the first field keeps two field lists in the same layout. */
  lemma SameLayoutTail(fs: seq<Value>, gs: seq<Value>)
    requires SameLayout(fs, gs) && |fs| > 0
    ensures SameLayout(fs[1..], gs[1..])
  {
    forall k | 0 <= k < |fs[1..]|
      ensures TypeOf(fs[1..][k]) == TypeOf(gs[1..][k])
    {
      assert TypeOf(fs[k + 1]) == TypeOf(gs[k + 1]);
    }
  }

  /**
   * Reading a field `g` where a field `f` of the same type was flattened
   * gives back `f`, or keeps `g` when it is of another type.
   */
  lemma ReadFlattened(p: seq<real>, f: Value, rest: seq<real>, g: Value)
    requires TypeOf(f) == TypeOf(g)
    ensures Read(p + Components(f) + rest, |p|, g) == Some(if f.Other? then g else f)
  {
    var data := p + Components(f) + rest;
    assert data[|p|..|p| + Arity(f)] == Components(f);
    if !g.Other? {
      ComponentsDetermineValue(Read(data, |p|, g).value, f);
    }
  }

  /**
   * Round trip: for a model without Vector4 fields, `arrayToModel` of its
   * flat array into a model of the same layout completes and copies every
   * Double and vector field; the other fields keep their own values.
   */
  lemma RoundTrip(fs: seq<Value>, gs: seq<Value>)
    requires SameLayout(fs, gs)
    requires forall k :: 0 <= k < |fs| ==> !fs[k].Vec4?
    ensures Fits(Flatten(fs), gs, 0, SourceVector4Step)
    ensures var r := Unflatten(Flatten(fs), gs, 0, SourceVector4Step);
            |r| == |fs| && forall k :: 0 <= k < |fs| ==> r[k] == if fs[k].Other? then gs[k] else fs[k]
  {
    UnflattenFlatten(fs, gs, SourceVector4Step);
  }

  /**
   * The round trip fails as written: the model `[Vector4(1, 2, 3, 4), Double 5]`
   * comes back with its Double set to the Vector4's `w`, 4.
   */
  lemma Vector4RoundTripFails()
    ensures var fs := [Vec4(1.0, 2.0, 3.0, 4.0), Scalar(5.0)];
            Fits(Flatten(fs), fs, 0, SourceVector4Step) &&
            Unflatten(Flatten(fs), fs, 0, SourceVector4Step) == [Vec4(1.0, 2.0, 3.0, 4.0), Scalar(4.0)] &&
            Unflatten(Flatten(fs), fs, 0, SourceVector4Step) != fs
  {
    var fs := [Vec4(1.0, 2.0, 3.0, 4.0), Scalar(5.0)];
    assert fs[1..][1..] == [];
    assert Flatten(fs) == [1.0, 2.0, 3.0, 4.0, 5.0];
    assert Read(Flatten(fs), 3, fs[1]) == Some(Scalar(4.0));
  }

  /**
   * With the cursor advancing by 4 after a Vector4 field, the round trip
   * holds for every layout.
   */
  lemma CorrectedRoundTrip(fs: seq<Value>, gs: seq<Value>)
    requires SameLayout(fs, gs)
    ensures Fits(Flatten(fs), gs, 0, CorrectedVector4Step)
    ensures var r := Unflatten(Flatten(fs), gs, 0, CorrectedVector4Step);
            |r| == |fs| && forall k :: 0 <= k < |fs| ==> r[k] == if fs[k].Other? then gs[k] else fs[k]
  {
    UnflattenFlatten(fs, gs, CorrectedVector4Step);
  }

  /**
   * A walk whose cursor never advances by more than a field's arity
   * completes on any array at least as long as the fields' total arity.
   */
  lemma {:induction false} FitsWhenLongEnough(data: seq<real>, gs: seq<Value>, at: nat, vector4Step: nat)
    requires vector4Step <= 4 && at + Width(gs) <= |data|
    ensures Fits(data, gs, at, vector4Step)
  {
    if |gs| > 0 {
      FitsWhenLongEnough(data, gs[1..], at + Advance(gs[0], vector4Step), vector4Step);
    }
  }

  /** Fields of the same layout have the same total arity. */
  lemma {:induction false} SameLayoutWidth(fs: seq<Value>, gs: seq<Value>)
    requires SameLayout(fs, gs)
    ensures Width(fs) == Width(gs)
  {
    if |fs| > 0 {
      assert TypeOf(fs[0]) == TypeOf(gs[0]);
      SameLayoutTail(fs, gs);
      SameLayoutWidth(fs[1..], gs[1..]);
    }
  }

  /**
   * Even with Vector4 fields the round trip never fails with an index
   * error: the short advance only makes later fields read too early.
   */
  lemma Vector4RoundTripCompletes(fs: seq<Value>, gs: seq<Value>)
    requires SameLayout(fs, gs)
    ensures Fits(Flatten(fs), gs, 0, SourceVector4Step)
  {
    FlattenLength(fs);
    SameLayoutWidth(fs, gs);
    FitsWhenLongEnough(Flatten(fs), gs, 0, SourceVector4Step);
  }
}
