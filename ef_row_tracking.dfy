/**
  Row tracking through EF Core: the change-tracker entry of one loaded row (its current
  and original values, which properties are flagged modified, and its state), the change
  detection EF runs whenever the session asks for the entry, the session that edits and
  reverts the row, how a session is started for a selected row, and when two contexts
  share a compiled model.
*/
module EfRowTracking {
  import opened Wrappers
  import opened Text
  import opened Failures
  import opened Values
  import opened Connection
  import opened CaseInsensitive
  import opened EfDatabaseAdmin

  // ---------------------------------------------------------------------------------------
  // The change-tracker entry

  /** The entity states this code can produce. */
  datatype EntityState = Unchanged | Modified {
    /** `EntityState.ToString()`. */
    function Name(): string {
      match this
      case Unchanged => "Unchanged"
      case Modified => "Modified"
    }
  }

  /**
    The entry of one tracked row: `current` is the property-bag dictionary itself (keys
    compared case-sensitively), `original` the values EF read from the database, one per
    property, `properties` the entity type's properties in the order EF lists them, `types`
    the CLR type EF reads each property as, `key` the name of the key property, `modified`
    the properties flagged modified.
  */
  datatype Entry = Entry(
    current: map<string, Value>,
    original: map<string, Value>,
    properties: seq<string>,
    types: map<string, ClrType>,
    key: string,
    modified: set<string>,
    state: EntityState)

  /** No string occurs twice in `xs`. */
  ghost predicate NoDuplicates(xs: seq<string>) {
    forall i, j | 0 <= i < j < |xs| :: xs[i] != xs[j]
  }

  lemma ConsNoDuplicates(x: string, rest: seq<string>)
    requires NoDuplicates(rest) && x !in rest
    ensures NoDuplicates([x] + rest)
  {
    var r := [x] + rest;
    forall i, j | 0 <= i < j < |r| ensures r[i] != r[j] {
      assert r[j] == rest[j - 1];
      if i > 0 {
        assert r[i] == rest[i - 1];
      }
    }
  }

  // ---------------------------------------------------------------------------------------
  // Change detection

  /** The CLR type EF reads property `p` as. */
  function PropertyType(e: Entry, p: string): ClrType {
    if p in e.types then e.types[p] else OtherType("System.Object")
  }

  /** Whether `p` holds a value other than the one it was loaded with. */
  predicate Changed(e: Entry, p: string) {
    p in e.current && p in e.original && e.current[p] != e.original[p]
  }

  /** Whether EF can read the current value of `p` through the property's typed getter: the
      value it loaded reads back, and so does any other value of the property's type. */
  predicate Readable(e: Entry, p: string)
    requires p in e.current && p in e.original
  {
    e.current[p] == e.original[p] || RuntimeType(e.current[p]) == Some(PropertyType(e, p))
  }

  /** A property the change detector throws at: not flagged, and either its value cannot be
      read as the property's type or it is the key and its value changed. */
  predicate Faulty(e: Entry, p: string) {
    && p in e.current && p in e.original && p !in e.modified
    && (!Readable(e, p) || (p == e.key && Changed(e, p)))
  }

  /** Whether some property of the entry is one the detector throws at. */
  predicate HasFaulty(e: Entry) {
    exists k | 0 <= k < |e.properties| :: Faulty(e, e.properties[k])
  }

  /** Every property that is not flagged holds the value it was loaded with. */
  predicate Clean(e: Entry) {
    forall k | 0 <= k < |e.properties| :: e.properties[k] in e.modified || !Changed(e, e.properties[k])
  }

  const NullReference: string := "Object reference not set to an instance of an object."

  /** Reading `v` through a getter typed `t`: unboxing `null` throws a null reference, an
      object of another type an invalid cast. */
  function ReadFailure(v: Value, t: ClrType): Failure {
    match RuntimeType(v)
    case None => ExternalFailure(NullReference)
    case Some(rt) => InvalidCastException("Unable to cast object of type '" + rt.Name() + "' to type '" + t.Name() + "'.")
  }

  /** EF's refusal to change a key property or flag it modified (its message abridged). */
  function KeyReadOnly(p: string): Failure {
    InvalidOperationException("The property '" + p + "' is part of a key and so cannot be modified or marked as modified.")
  }

  /** What the detector throws at a faulty property. */
  function DetectionFailure(e: Entry, p: string): Failure
    requires p in e.current && p in e.original
  {
    if !Readable(e, p) then ReadFailure(e.current[p], PropertyType(e, p)) else KeyReadOnly(p)
  }

  /**
    The change detection `DbContext.Entry` runs on the entity, from its `i`-th property on:
    a flagged property is skipped; any other is read, and an unreadable value or a changed
    key throws, keeping the flags set so far; any other changed value is flagged, which
    makes the entry `Modified`.
  */
  function DetectFrom(e: Entry, i: nat): (r: (Option<Failure>, Entry))
    requires i <= |e.properties|
    ensures r.1 == e.(modified := r.1.modified, state := r.1.state)
    ensures e.modified <= r.1.modified
    ensures forall p | p in r.1.modified && p !in e.modified :: p in e.properties && Changed(e, p) && !Faulty(e, p)
    ensures r.1.state == if r.1.modified == e.modified then e.state else Modified
    decreases |e.properties| - i
  {
    if i == |e.properties| then (None, e)
    else
      var p := e.properties[i];
      if Faulty(e, p) then (Some(DetectionFailure(e, p)), e)
      else if p !in e.modified && Changed(e, p) then
        var marked := e.(modified := e.modified + {p}, state := Modified);
        MarkKeepsFaults(e, p);
        DetectFrom(marked, i + 1)
      else DetectFrom(e, i + 1)
  }

  /** Flagging a property that is not faulty leaves every property faulty or not as it was. */
  lemma MarkKeepsFaults(e: Entry, p: string)
    requires !Faulty(e, p)
    ensures forall q :: Faulty(e.(modified := e.modified + {p}, state := Modified), q) == Faulty(e, q)
  {
  }

  /** Flagging a property changes neither what another property's read throws nor whether
      it is faulty. */
  lemma MarkKeepsFailure(e: Entry, p: string, q: string)
    requires q in e.current && q in e.original
    ensures var marked := e.(modified := e.modified + {p}, state := Modified);
      DetectionFailure(marked, q) == DetectionFailure(e, q)
  {
  }

  /** The detection from the `i`-th property on throws exactly when a property from there
      on is faulty. */
  lemma {:induction false} DetectFromThrows(e: Entry, i: nat)
    requires i <= |e.properties|
    ensures DetectFrom(e, i).0.None? <==> forall k | i <= k < |e.properties| :: !Faulty(e, e.properties[k])
    decreases |e.properties| - i
  {
    if i < |e.properties| {
      var p := e.properties[i];
      if Faulty(e, p) {
        assert Faulty(e, e.properties[i]);
      } else if p !in e.modified && Changed(e, p) {
        var marked := e.(modified := e.modified + {p}, state := Modified);
        MarkKeepsFaults(e, p);
        DetectFromThrows(marked, i + 1);
      } else {
        DetectFromThrows(e, i + 1);
      }
    }
  }

  /** When it does not throw, every property from the `i`-th on is flagged or holds its
      loaded value. */
  lemma {:induction false} DetectFromFlags(e: Entry, i: nat)
    requires i <= |e.properties|
    ensures var r := DetectFrom(e, i);
      r.0.None? ==> forall k | i <= k < |e.properties| :: e.properties[k] in r.1.modified || !Changed(e, e.properties[k])
    decreases |e.properties| - i
  {
    if i < |e.properties| {
      var p := e.properties[i];
      if Faulty(e, p) {
      } else if p !in e.modified && Changed(e, p) {
        var marked := e.(modified := e.modified + {p}, state := Modified);
        MarkKeepsFaults(e, p);
        DetectFromFlags(marked, i + 1);
      } else {
        DetectFromFlags(e, i + 1);
      }
    }
  }

  /** When it throws, it throws the failure of a faulty property. */
  lemma {:induction false} DetectFromFailure(e: Entry, i: nat)
    requires i <= |e.properties|
    ensures var r := DetectFrom(e, i);
      r.0.Some? ==> exists k | i <= k < |e.properties| ::
        Faulty(e, e.properties[k]) && r.0.value == DetectionFailure(e, e.properties[k])
    decreases |e.properties| - i
  {
    if i < |e.properties| {
      var p := e.properties[i];
      if Faulty(e, p) {
        assert Faulty(e, e.properties[i]);
      } else if p !in e.modified && Changed(e, p) {
        var marked := e.(modified := e.modified + {p}, state := Modified);
        MarkKeepsFaults(e, p);
        DetectFromFailure(marked, i + 1);
        assert DetectFrom(e, i) == DetectFrom(marked, i + 1);
        var r := DetectFrom(marked, i + 1);
        if r.0.Some? {
          var k :| i + 1 <= k < |e.properties| && Faulty(marked, marked.properties[k])
                   && r.0.value == DetectionFailure(marked, marked.properties[k]);
          MarkKeepsFailure(e, p, e.properties[k]);
        }
      } else {
        DetectFromFailure(e, i + 1);
      }
    }
  }

  /** The three facts above for the whole detection. */
  lemma DetectFromOutcome(e: Entry, i: nat)
    requires i <= |e.properties|
    ensures var r := DetectFrom(e, i);
      && (r.0.None? <==> forall k | i <= k < |e.properties| :: !Faulty(e, e.properties[k]))
      && (r.0.None? ==> forall k | i <= k < |e.properties| ::
            e.properties[k] in r.1.modified || !Changed(e, e.properties[k]))
      && (r.0.Some? ==> exists k | i <= k < |e.properties| ::
            Faulty(e, e.properties[k]) && r.0.value == DetectionFailure(e, e.properties[k]))
  {
    DetectFromThrows(e, i);
    DetectFromFlags(e, i);
    DetectFromFailure(e, i);
  }

  /** The detection over all properties. */
  function DetectChanges(e: Entry): (r: (Option<Failure>, Entry)) {
    DetectFrom(e, 0)
  }

  /** A faulty property stays faulty through the detection: it throws again on every later
      call until its value is overwritten. */
  lemma DetectKeepsFaults(e: Entry, p: string)
    requires Faulty(e, p)
    ensures Faulty(DetectChanges(e).1, p)
  {
  }

  /** The detection throws exactly when some property is faulty; otherwise it leaves every
      property flagged or holding its loaded value. */
  lemma DetectOutcome(e: Entry)
    ensures var r := DetectChanges(e);
      && (r.0.Some? <==> HasFaulty(e))
      && (r.0.Some? ==> HasFaulty(r.1))
      && (r.0.None? ==> Clean(r.1))
  {
    var r := DetectChanges(e);
    DetectFromOutcome(e, 0);
    if r.0.Some? {
      var k :| 0 <= k < |e.properties| && Faulty(e, e.properties[k]) && r.0.value == DetectionFailure(e, e.properties[k]);
      DetectKeepsFaults(e, e.properties[k]);
      assert Faulty(r.1, r.1.properties[k]);
    }
  }

  /** On an entry with nothing faulty in which every property not flagged holds its loaded
      value, the detection finds nothing and changes nothing. */
  lemma DetectCleanIsNoOp(e: Entry)
    requires Clean(e) && !HasFaulty(e)
    ensures DetectChanges(e) == (None, e)
  {
    var r := DetectChanges(e);
    DetectFromOutcome(e, 0);
    assert r.1.modified == e.modified;
  }

  /**
    The detection right after a write to `c` on an entry where every other property is
    clean and not faulty: it throws at `c` when `c` is faulty, flags `c` when its value
    changed, and otherwise does nothing.
  */
  lemma DetectAfterWrite(w: Entry, c: string)
    requires c in w.properties
    requires forall k | 0 <= k < |w.properties| && w.properties[k] != c ::
               !Faulty(w, w.properties[k]) && (w.properties[k] in w.modified || !Changed(w, w.properties[k]))
    ensures DetectChanges(w) ==
              if Faulty(w, c) then (Some(DetectionFailure(w, c)), w)
              else if c !in w.modified && Changed(w, c) then (None, w.(modified := w.modified + {c}, state := Modified))
              else (None, w)
  {
    var r := DetectChanges(w);
    DetectFromOutcome(w, 0);
    assert r.1.modified <= w.modified + {c} by {
      forall p | p in r.1.modified && p !in w.modified ensures p == c {
        var k :| 0 <= k < |w.properties| && w.properties[k] == p;
      }
    }
    var kc :| 0 <= kc < |w.properties| && w.properties[kc] == c;
    if Faulty(w, c) {
      assert !r.0.None?;
      var k :| 0 <= k < |w.properties| && Faulty(w, w.properties[k]) && r.0.value == DetectionFailure(w, w.properties[k]);
      assert w.properties[k] == c;
      assert c !in r.1.modified;
      assert r.1.modified == w.modified;
    } else if c !in w.modified && Changed(w, c) {
      assert r.0.None?;
      assert w.properties[kc] in r.1.modified;
      assert r.1.modified == w.modified + {c};
    } else {
      assert r.0.None?;
      assert c !in r.1.modified - w.modified;
      assert r.1.modified == w.modified;
    }
  }

  /** The shape every entry of a session has: distinct properties, each with an original
      value, a current value and a type; only properties flagged, never the key; and the
      entry `Unchanged` exactly when nothing is flagged. */
  ghost predicate Shaped(e: Entry) {
    && NoDuplicates(e.properties)
    && (forall p :: p in e.original <==> p in e.properties)
    && (forall p | p in e.original :: p in e.current && p in e.types)
    && (forall p | p in e.modified :: p in e.original)
    && e.key !in e.modified
    && (e.state == Unchanged <==> e.modified == {})
  }

  /** What a session keeps true between calls: its shape, and every property not flagged
      holds its loaded value unless some property is faulty (a rejected write). */
  ghost predicate WellFormed(e: Entry) {
    Shaped(e) && (Clean(e) || HasFaulty(e))
  }

  /** The detection on an entry of the right shape leaves a well-formed entry, whatever was
      written into it. */
  lemma DetectMakesWellFormed(e: Entry)
    requires Shaped(e)
    ensures WellFormed(DetectChanges(e).1)
  {
    DetectOutcome(e);
  }

  lemma DetectKeepsWellFormed(e: Entry)
    requires WellFormed(e)
    ensures WellFormed(DetectChanges(e).1)
  {
    DetectMakesWellFormed(e);
  }

  /** The entry EF builds for a row it has just loaded. */
  function LoadedEntry(entity: map<string, Value>, properties: seq<string>, types: map<string, ClrType>,
                       key: string): (e: Entry)
    requires forall p | p in properties :: p in entity
    ensures e.current == entity && e.properties == properties && e.types == types && e.key == key
    ensures e.modified == {} && e.state == Unchanged
    ensures forall p :: p in e.original <==> p in properties
    ensures forall p | p in e.original :: e.original[p] == entity[p]
  {
    Entry(entity, map p | p in properties :: entity[p], properties, types, key, {}, Unchanged)
  }

  /** A loaded entry with distinct, typed properties is well formed, and nothing in it is
      faulty. */
  lemma LoadedEntryWellFormed(entity: map<string, Value>, properties: seq<string>, types: map<string, ClrType>,
                              key: string)
    requires forall p | p in properties :: p in entity && p in types
    requires NoDuplicates(properties)
    ensures WellFormed(LoadedEntry(entity, properties, types, key))
    ensures !HasFaulty(LoadedEntry(entity, properties, types, key))
  {
  }

  /** What a boxed `null` becomes when stored in the property bag (`value ?? DBNull.Value`). */
  function Stored(value: Value): (v: Value)
    ensures v != Null
    ensures value != Null ==> v == value
  {
    if value == Null then DbNull else value
  }

  const ColumnNameEmpty: string := "Column name must not be empty."
  const ColumnNotInEntity: string := "Column does not exist in tracked entity."

  /** What `EntityEntry.Property(name)` throws for a name that is not a property (message
      abridged). */
  function NotAProperty(columnName: string): Failure {
    InvalidOperationException("The property '" + columnName + "' is not a property of the tracked entity type.")
  }

  /**
    `SetValue(columnName, value)`: a blank name or a key the dictionary lacks throws before
    anything changes. Otherwise the dictionary entry is overwritten and stays overwritten,
    whatever follows: `Entry` runs the detection, which throws at a value it cannot read
    (the written one included) or a changed key; `Property` throws for a name that is not
    a property; flagging the key throws; otherwise the property is flagged modified, which
    makes the entry `Modified`.
  */
  function SetValueSpec(e: Entry, columnName: string, value: Value): (r: (Outcome<Failure>, Entry))
    ensures IsBlank(columnName) ==> r == (Fail(ArgumentException("columnName", ColumnNameEmpty)), e)
    ensures !IsBlank(columnName) && columnName !in e.current ==>
              r == (Fail(ArgumentException("columnName", ColumnNotInEntity)), e)
    ensures !IsBlank(columnName) && columnName in e.current ==>
              r.1.current == e.current[columnName := Stored(value)] && e.modified <= r.1.modified
    ensures r.0.Pass? ==> columnName in r.1.modified && r.1.state == Modified
    ensures columnName == e.key ==> r.0.Fail?
    ensures columnName in e.properties && columnName in e.original && columnName !in e.modified
            && Stored(value) != e.original[columnName]
            && RuntimeType(Stored(value)) != Some(PropertyType(e, columnName)) ==>
              r.0.Fail? && columnName !in r.1.modified
    ensures r.1.original == e.original && r.1.properties == e.properties
    ensures r.1.types == e.types && r.1.key == e.key
  {
    if IsBlank(columnName) then (Fail(ArgumentException("columnName", ColumnNameEmpty)), e)
    else if columnName !in e.current then (Fail(ArgumentException("columnName", ColumnNotInEntity)), e)
    else
      var written := e.(current := e.current[columnName := Stored(value)]);
      var (detected, seen) := DetectChanges(written);
      WrittenFaultyIsDetected(e, columnName, value);
      if detected.Some? then
        (Fail(detected.value), seen)
      else if columnName !in e.original then (Fail(NotAProperty(columnName)), seen)
      else if columnName == e.key then (Fail(KeyReadOnly(columnName)), seen)
      else (Pass, seen.(modified := seen.modified + {columnName}, state := Modified))
  }

  /** A mistyped write to a property that is not flagged makes it faulty, so the detection
      throws and does not flag it. */
  lemma WrittenFaultyIsDetected(e: Entry, columnName: string, value: Value)
    requires columnName in e.current
    ensures var written := e.(current := e.current[columnName := Stored(value)]);
      var r := DetectChanges(written);
      columnName in e.properties && columnName in e.original && columnName !in e.modified
      && Stored(value) != e.original[columnName]
      && RuntimeType(Stored(value)) != Some(PropertyType(e, columnName)) ==>
        r.0.Some? && columnName !in r.1.modified
  {
    var written := e.(current := e.current[columnName := Stored(value)]);
    if columnName in e.properties && columnName in e.original && columnName !in e.modified
       && Stored(value) != e.original[columnName]
       && RuntimeType(Stored(value)) != Some(PropertyType(e, columnName))
    {
      var k :| 0 <= k < |written.properties| && written.properties[k] == columnName;
      assert Faulty(written, written.properties[k]);
      DetectFromThrows(written, 0);
    }
  }

  /** A write of a value of another type to a property that is not flagged fails with the
      cast error, keeps the written value and flags nothing: what happens when the demo
      writes "DemoValue" to a column of a type it does not handle. */
  lemma SetValueRejectsMistypedValue(e: Entry, columnName: string, value: Value)
    requires WellFormed(e) && !HasFaulty(e)
    requires !IsBlank(columnName) && columnName in e.original && columnName !in e.modified
    requires Stored(value) != e.original[columnName]
    requires RuntimeType(Stored(value)) != Some(PropertyType(e, columnName))
    ensures SetValueSpec(e, columnName, value) ==
              (Fail(ReadFailure(Stored(value), PropertyType(e, columnName))),
               e.(current := e.current[columnName := Stored(value)]))
  {
    var w := e.(current := e.current[columnName := Stored(value)]);
    WriteLeavesOthers(e, columnName, value);
    DetectAfterWrite(w, columnName);
  }

  /** A write to the key property always fails and flags nothing: with a value of its type
      the detector (or flagging it) refuses the key change, with any other value the read
      fails first. */
  lemma SetValueRejectsKey(e: Entry, columnName: string, value: Value)
    requires WellFormed(e) && !HasFaulty(e)
    requires !IsBlank(columnName) && columnName == e.key && columnName in e.original
    ensures var v := Stored(value);
      var readable := v == e.original[columnName] || RuntimeType(v) == Some(PropertyType(e, columnName));
      SetValueSpec(e, columnName, value) ==
        (Fail(if readable then KeyReadOnly(columnName) else ReadFailure(v, PropertyType(e, columnName))),
         e.(current := e.current[columnName := v]))
  {
    KeyWriteDetection(e, columnName, value);
    SetValueOnKey(e, columnName, value);
  }

  /** A write to the key ends in the detection's exception, or else in the refusal to flag
      the key, with the entry the detection leaves. */
  lemma SetValueOnKey(e: Entry, columnName: string, value: Value)
    requires !IsBlank(columnName) && columnName == e.key && columnName in e.original && columnName in e.current
    ensures var d := DetectChanges(e.(current := e.current[columnName := Stored(value)]));
      SetValueSpec(e, columnName, value) == (Fail(if d.0.Some? then d.0.value else KeyReadOnly(columnName)), d.1)
  {
  }

  /** What the detection does after a write to the key of a clean entry: it throws at the
      key unless the key keeps its loaded value. */
  lemma KeyWriteDetection(e: Entry, columnName: string, value: Value)
    requires WellFormed(e) && !HasFaulty(e)
    requires columnName == e.key && columnName in e.original
    ensures var v := Stored(value);
      var w := e.(current := e.current[columnName := v]);
      DetectChanges(w) ==
        if v == e.original[columnName] then (None, w)
        else if RuntimeType(v) == Some(PropertyType(e, columnName)) then (Some(KeyReadOnly(columnName)), w)
        else (Some(ReadFailure(v, PropertyType(e, columnName))), w)
  {
    var w := e.(current := e.current[columnName := Stored(value)]);
    WriteLeavesOthers(e, columnName, value);
    DetectAfterWrite(w, columnName);
  }

  /** A write to a property other than the key with a value EF can read (of the property's
      type, the loaded value, or any value once the property is flagged) succeeds: the value
      is stored, the property flagged and the entry `Modified`. */
  lemma SetValueAcceptsWrite(e: Entry, columnName: string, value: Value)
    requires WellFormed(e) && !HasFaulty(e)
    requires !IsBlank(columnName) && columnName != e.key && columnName in e.original
    requires || columnName in e.modified
             || Stored(value) == e.original[columnName]
             || RuntimeType(Stored(value)) == Some(PropertyType(e, columnName))
    ensures SetValueSpec(e, columnName, value) ==
              (Pass, e.(current := e.current[columnName := Stored(value)],
                        modified := e.modified + {columnName}, state := Modified))
  {
    var w := e.(current := e.current[columnName := Stored(value)]);
    WriteLeavesOthers(e, columnName, value);
    DetectAfterWrite(w, columnName);
  }

  /** Writing `columnName` of a well-formed entry with nothing faulty leaves every other
      property clean and not faulty. */
  lemma WriteLeavesOthers(e: Entry, columnName: string, value: Value)
    requires WellFormed(e) && !HasFaulty(e) && columnName in e.original
    ensures var w := e.(current := e.current[columnName := Stored(value)]);
      && columnName in w.properties
      && forall k | 0 <= k < |w.properties| && w.properties[k] != columnName ::
           !Faulty(w, w.properties[k]) && (w.properties[k] in w.modified || !Changed(w, w.properties[k]))
  {
    var w := e.(current := e.current[columnName := Stored(value)]);
    forall k | 0 <= k < |w.properties| && w.properties[k] != columnName
      ensures !Faulty(w, w.properties[k]) && (w.properties[k] in w.modified || !Changed(w, w.properties[k]))
    {
      assert !Faulty(e, e.properties[k]);
    }
  }

  /** `RevertChanges`: `Entry` runs the detection, which may throw; otherwise every
      property's current value is set back to its original, every modified flag is cleared
      and the entry is `Unchanged`. */
  function RevertSpec(e: Entry): (Outcome<Failure>, Entry) {
    var (detected, seen) := DetectChanges(e);
    if detected.Some? then (Fail(detected.value), seen)
    else (Pass, seen.(current := seen.current + seen.original, modified := {}, state := Unchanged))
  }

  /** The properties of `properties` that are in `modified`, in property order. */
  function ModifiedInOrder(properties: seq<string>, modified: set<string>): (r: seq<string>)
    ensures forall x :: x in r <==> x in properties && x in modified
    ensures |r| <= |properties|
  {
    if |properties| == 0 then []
    else
      var rest := ModifiedInOrder(properties[1..], modified);
      assert forall x :: x in properties <==> x == properties[0] || x in properties[1..];
      if properties[0] in modified then [properties[0]] + rest else rest
  }

  /** What `GetSnapshot` reports. */
  datatype Snapshot = Snapshot(state: string, modifiedColumns: seq<string>)

  /** The snapshot of an entry the detection has already run on. */
  function SnapshotOf(e: Entry): Snapshot {
    Snapshot(e.state.Name(), ModifiedInOrder(e.properties, e.modified))
  }

  /** `GetSnapshot`: `Entry` runs the detection, which may throw, then the state and the
      flagged properties are read. */
  function SnapshotSpec(e: Entry): (Result<Snapshot, Failure>, Entry) {
    var (detected, seen) := DetectChanges(e);
    if detected.Some? then (Failure(detected.value), seen) else (Success(SnapshotOf(seen)), seen)
  }

  /** On a well-formed entry with nothing faulty the snapshot succeeds and changes nothing. */
  lemma SnapshotOfSound(e: Entry)
    requires WellFormed(e) && !HasFaulty(e)
    ensures SnapshotSpec(e) == (Success(SnapshotOf(e)), e)
  {
    DetectCleanIsNoOp(e);
  }

  lemma {:induction false} ModifiedInOrderDistinct(properties: seq<string>, modified: set<string>)
    requires NoDuplicates(properties)
    ensures NoDuplicates(ModifiedInOrder(properties, modified))
  {
    if |properties| > 0 {
      var tail := properties[1..];
      assert NoDuplicates(tail) by {
        forall i, j | 0 <= i < j < |tail| ensures tail[i] != tail[j] {
          assert tail[i] == properties[i + 1] && tail[j] == properties[j + 1];
        }
      }
      ModifiedInOrderDistinct(tail, modified);
      assert properties[0] !in tail by {
        forall k | 0 <= k < |tail| ensures tail[k] != properties[0] {
          assert tail[k] == properties[k + 1];
        }
      }
      if properties[0] in modified {
        ConsNoDuplicates(properties[0], ModifiedInOrder(tail, modified));
      }
    }
  }

  lemma {:induction false} NothingModified(properties: seq<string>)
    ensures ModifiedInOrder(properties, {}) == []
  {
    if |properties| > 0 {
      NothingModified(properties[1..]);
    }
  }

  /** The snapshot lists each modified property once and nothing else, and it is empty
      exactly when the state is `Unchanged`. */
  lemma SnapshotListsModified(e: Entry)
    requires WellFormed(e)
    ensures var s := SnapshotOf(e);
      && (forall x :: x in s.modifiedColumns <==> x in e.modified)
      && NoDuplicates(s.modifiedColumns)
      && (|s.modifiedColumns| == 0 <==> s.state == "Unchanged")
  {
    ModifiedInOrderDistinct(e.properties, e.modified);
    var s := SnapshotOf(e);
    if e.modified != {} {
      var x :| x in e.modified;
      assert x in s.modifiedColumns;
    } else {
      NothingModified(e.properties);
    }
  }

  /** Every operation of the session keeps its entry well formed. */
  lemma SetValueKeepsWellFormed(e: Entry, columnName: string, value: Value)
    requires WellFormed(e)
    ensures WellFormed(SetValueSpec(e, columnName, value).1)
  {
    if !IsBlank(columnName) && columnName in e.current {
      var written := e.(current := e.current[columnName := Stored(value)]);
      assert Shaped(written);
      DetectMakesWellFormed(written);
      DetectOutcome(written);
      var seen := DetectChanges(written).1;
      if DetectChanges(written).0.None? && columnName in e.original && columnName != e.key {
        FlagKeepsWellFormed(seen, columnName);
      }
    }
  }

  /** Flagging a property other than the key of a clean, consistent entry keeps it
      consistent. */
  lemma FlagKeepsWellFormed(e: Entry, columnName: string)
    requires WellFormed(e) && Clean(e) && columnName in e.original && columnName != e.key
    ensures WellFormed(e.(modified := e.modified + {columnName}, state := Modified))
  {
    var r := e.(modified := e.modified + {columnName}, state := Modified);
    assert Clean(r);
  }

  /** A write that succeeds leaves nothing faulty, so the snapshot that follows it in the
      demo succeeds. */
  lemma SetValuePassIsSound(e: Entry, columnName: string, value: Value)
    requires WellFormed(e) && SetValueSpec(e, columnName, value).0.Pass?
    ensures !HasFaulty(SetValueSpec(e, columnName, value).1)
  {
    var written := e.(current := e.current[columnName := Stored(value)]);
    DetectOutcome(written);
    var seen := DetectChanges(written).1;
    var r := SetValueSpec(e, columnName, value).1;
    assert r == seen.(modified := seen.modified + {columnName}, state := Modified);
    forall k | 0 <= k < |r.properties| ensures !Faulty(r, r.properties[k]) {
      assert !Faulty(written, written.properties[k]);
    }
  }

  lemma RevertKeepsWellFormed(e: Entry)
    requires WellFormed(e)
    ensures WellFormed(RevertSpec(e).1)
  {
    DetectOutcome(e);
    var seen := DetectChanges(e).1;
    if DetectChanges(e).0.None? {
      var r := seen.(current := seen.current + seen.original, modified := {}, state := Unchanged);
      assert Clean(r);
    }
  }

  /** A write changes no other column's value; it flags no other column except one whose
      value had already been changed by an earlier rejected write, and in a clean entry it
      flags no other column at all. */
  lemma SetValueTouchesOneColumn(e: Entry, columnName: string, value: Value, other: string)
    requires WellFormed(e) && other != columnName && other in e.current
    ensures var e' := SetValueSpec(e, columnName, value).1;
      && other in e'.current && e'.current[other] == e.current[other]
      && (other in e'.modified && other !in e.modified ==> Changed(e, other))
      && (Clean(e) ==> (other in e'.modified <==> other in e.modified))
  {
    if Clean(e) && other in e.original && other !in e.modified {
      var k :| 0 <= k < |e.properties| && e.properties[k] == other;
    }
  }

  /** A call on the session. */
  datatype Call = SetValueCall(columnName: string, value: Value) | RevertCall | SnapshotCall

  /** The entry after a sequence of calls; a call that throws is caught and the next call
      proceeds on whatever it left behind. */
  function Run(e: Entry, calls: seq<Call>): Entry
    decreases |calls|
  {
    if |calls| == 0 then e
    else
      var next := match calls[0]
        case SetValueCall(c, v) => SetValueSpec(e, c, v).1
        case RevertCall => RevertSpec(e).1
        case SnapshotCall => SnapshotSpec(e).1;
      Run(next, calls[1..])
  }

  /** Calls never change the original values, the property list, the property types or
      the key, and keep the entry well formed. */
  lemma {:induction false} RunKeepsOriginals(e: Entry, calls: seq<Call>)
    requires WellFormed(e)
    ensures var e' := Run(e, calls);
      && WellFormed(e') && e'.original == e.original && e'.properties == e.properties
      && e'.types == e.types && e'.key == e.key
    decreases |calls|
  {
    if |calls| > 0 {
      match calls[0]
      case SetValueCall(c, v) =>
        SetValueKeepsWellFormed(e, c, v);
        RunKeepsOriginals(SetValueSpec(e, c, v).1, calls[1..]);
      case RevertCall =>
        RevertKeepsWellFormed(e);
        RunKeepsOriginals(RevertSpec(e).1, calls[1..]);
      case SnapshotCall =>
        DetectKeepsWellFormed(e);
        RunKeepsOriginals(SnapshotSpec(e).1, calls[1..]);
    }
  }

  /** Whatever sequence of calls came before, a revert succeeds exactly when no property is
      faulty; then it leaves every property at the value it was loaded with, no property
      flagged and the state `Unchanged`, the snapshot succeeds and is empty, and reverting
      again changes nothing. A revert that fails leaves a faulty property behind, so it
      fails again until that property is overwritten. */
  lemma RevertAfterAnyCalls(e: Entry, calls: seq<Call>)
    requires WellFormed(e)
    ensures var e1 := Run(e, calls);
      var (outcome, r) := RevertSpec(e1);
      && (outcome.Pass? <==> !HasFaulty(e1))
      && (outcome.Pass? ==>
            && (forall p | p in e.properties :: p in r.current && r.current[p] == e.original[p])
            && r.modified == {}
            && r.state == Unchanged
            && SnapshotSpec(r) == (Success(Snapshot("Unchanged", [])), r)
            && RevertSpec(r) == (Pass, r))
      && (outcome.Fail? ==> HasFaulty(r) && r.original == e.original)
  {
    RunKeepsOriginals(e, calls);
    var e1 := Run(e, calls);
    DetectOutcome(e1);
    RevertKeepsWellFormed(e1);
    if RevertSpec(e1).0.Pass? {
      RevertPassIsClean(e1);
    }
  }

  /** A revert that succeeds leaves every property at its loaded value, nothing flagged,
      nothing faulty and the entry `Unchanged`: the snapshot after it succeeds and is empty,
      and reverting again changes nothing. */
  lemma RevertPassIsClean(e: Entry)
    requires WellFormed(e) && RevertSpec(e).0.Pass?
    ensures var r := RevertSpec(e).1;
      && (forall p | p in e.properties :: p in r.current && r.current[p] == e.original[p])
      && r.modified == {} && r.state == Unchanged && !HasFaulty(r)
      && SnapshotSpec(r) == (Success(Snapshot("Unchanged", [])), r)
      && RevertSpec(r) == (Pass, r)
  {
    RevertKeepsWellFormed(e);
    var r := RevertSpec(e).1;
    assert r.current + r.original == r.current;
    assert !HasFaulty(r) by {
      forall k | 0 <= k < |r.properties| ensures !Faulty(r, r.properties[k]) {
        assert r.current[r.properties[k]] == r.original[r.properties[k]];
      }
    }
    DetectCleanIsNoOp(r);
    NothingModified(r.properties);
  }

  // ---------------------------------------------------------------------------------------
  // Context and session

  /** The runtime model a tracking context is built for (its type is not part of the
      shown code; these are the fields the service fills). */
  datatype Descriptor = Descriptor(
    entityName: string,
    tableName: string,
    primaryKeyColumn: string,
    columnTypes: CiDictionary<ClrType>)

  /** `EfDbContext`: what it connects to, the tracking model it was built with, and whether
      it has been disposed. */
  class EfDbContext {
    const connection: ConnectionSettings
    const descriptor: Option<Descriptor>
    var disposed: bool

    constructor (connection: ConnectionSettings, descriptor: Option<Descriptor>)
      ensures this.connection == connection && this.descriptor == descriptor && !disposed
    {
      this.connection := connection;
      this.descriptor := descriptor;
      disposed := false;
    }

    method Dispose()
      modifies this
      ensures disposed
    {
      disposed := true;
    }
  }

  /** `EfRowTrackingSession`: a context and the one entity it tracks. */
  class EfRowTrackingSession {
    const context: EfDbContext
    var entity: map<string, Value>
    const original: map<string, Value>
    const properties: seq<string>
    const types: map<string, ClrType>
    const key: string
    var modified: set<string>
    var state: EntityState

    /** The tracked entry as EF sees it. */
    function Model(): Entry
      reads this
    {
      Entry(entity, original, properties, types, key, modified, state)
    }

    ghost predicate Valid()
      reads this
    {
      WellFormed(Model())
    }

    constructor (context: EfDbContext, e: Entry)
      requires WellFormed(e)
      ensures this.context == context && Model() == e && Valid()
    {
      this.context := context;
      entity := e.current;
      original := e.original;
      properties := e.properties;
      types := e.types;
      key := e.key;
      modified := e.modified;
      state := e.state;
    }

    /** `_context.Entry(_entity)`: runs the change detection on the entity. */
    method ReadEntry() returns (failure: Option<Failure>)
      modifies this
      ensures (failure, Model()) == DetectChanges(old(Model()))
    {
      var (detected, seen) := DetectChanges(Model());
      modified, state := seen.modified, seen.state;
      failure := detected;
    }

    /** `GetSnapshot`: reads the entry, then lists its flagged properties in property order. */
    method GetSnapshot() returns (snapshot: Result<Snapshot, Failure>)
      requires Valid()
      modifies this
      ensures (snapshot, Model()) == SnapshotSpec(old(Model()))
      ensures Valid()
    {
      DetectKeepsWellFormed(Model());
      var failure := ReadEntry();
      if failure.Some? {
        return Failure(failure.value);
      }
      ghost var seen := Model();
      var names := [];
      var i := 0;
      while i < |properties|
        invariant 0 <= i <= |properties|
        invariant names == ModifiedInOrder(properties[..i], modified)
        invariant Model() == seen
      {
        PrefixExtends(properties, i, modified);
        if properties[i] in modified {
          names := names + [properties[i]];
        }
        i := i + 1;
      }
      assert properties[..i] == properties;
      snapshot := Success(Snapshot(state.Name(), names));
    }

    method SetValue(columnName: string, value: Value) returns (outcome: Outcome<Failure>)
      requires Valid()
      modifies this
      ensures (outcome, Model()) == SetValueSpec(old(Model()), columnName, value)
      ensures Valid()
    {
      SetValueKeepsWellFormed(Model(), columnName, value);
      if IsBlank(columnName) {
        return Fail(ArgumentException("columnName", ColumnNameEmpty));
      }
      if columnName !in entity {
        return Fail(ArgumentException("columnName", ColumnNotInEntity));
      }
      ghost var written := Model().(current := entity[columnName := Stored(value)]);
      entity := entity[columnName := Stored(value)];
      assert Model() == written;
      var failure := ReadEntry();
      if failure.Some? {
        return Fail(failure.value);
      }
      if columnName !in original {
        return Fail(NotAProperty(columnName));
      }
      if columnName == key {
        return Fail(KeyReadOnly(columnName));
      }
      modified := modified + {columnName};
      state := Modified;
      outcome := Pass;
    }

    /** `RevertChanges`: reads the entry, copies the original values back, clears each
        property's modified flag in turn, then marks the entry unchanged. */
    method RevertChanges() returns (outcome: Outcome<Failure>)
      requires Valid()
      modifies this
      ensures (outcome, Model()) == RevertSpec(old(Model()))
      ensures Valid()
    {
      RevertKeepsWellFormed(Model());
      var failure := ReadEntry();
      if failure.Some? {
        return Fail(failure.value);
      }
      entity := entity + original;
      ClearModifiedFlags();
      state := Unchanged;
      outcome := Pass;
    }

    /** Clears the modified flag of each property in property order. */
    method ClearModifiedFlags()
      requires forall p | p in modified :: p in properties
      modifies this
      ensures modified == {}
      ensures entity == old(entity) && state == old(state)
    {
      var i := 0;
      while i < |properties|
        invariant 0 <= i <= |properties|
        invariant forall p | p in modified :: p in properties[i..]
        invariant entity == old(entity) && state == old(state)
      {
        modified := modified - {properties[i]};
        i := i + 1;
      }
    }

    /** `Dispose`: disposes the context. */
    method Dispose()
      modifies context
      ensures context.disposed
    {
      context.Dispose();
    }
  }

  lemma PrefixExtends(properties: seq<string>, i: nat, modified: set<string>)
    requires i < |properties|
    ensures ModifiedInOrder(properties[..i + 1], modified) ==
              ModifiedInOrder(properties[..i], modified) + (if properties[i] in modified then [properties[i]] else [])
  {
    AppendOne(properties[..i], properties[i], modified);
    assert properties[..i + 1] == properties[..i] + [properties[i]];
  }

  lemma {:induction false} AppendOne(ps: seq<string>, p: string, modified: set<string>)
    ensures ModifiedInOrder(ps + [p], modified) ==
              ModifiedInOrder(ps, modified) + (if p in modified then [p] else [])
  {
    if |ps| > 0 {
      assert (ps + [p])[1..] == ps[1..] + [p];
      AppendOne(ps[1..], p, modified);
    }
  }

  // ---------------------------------------------------------------------------------------
  // Starting a session

  const RowNotLoaded: string := "Selected row could not be loaded as tracked entity."

  /** `ToDictionary(c => c.ColumnName, c => c.DataType, StringComparer.OrdinalIgnoreCase)`:
      throws on the first column whose name repeats an earlier one ignoring case. */
  function ColumnTypeMap(columns: seq<DataColumn>): (r: Result<CiDictionary<ClrType>, Failure>)
    ensures r.Success? ==> r.value.Keys() == ColumnNames(columns) && r.value.Valid()
    ensures r.Success? ==> forall i | 0 <= i < |columns| ::
              r.value.TryGetValue(columns[i].name) == Some(columns[i].dataType)
    ensures r.Failure? <==> !Distinct(ColumnNames(columns))
  {
    if |columns| == 0 then Success(CiDictionary([]))
    else
      var init := columns[..|columns| - 1];
      var last := columns[|columns| - 1];
      assert columns == init + [last];
      match ColumnTypeMap(init)
      case Failure(e) =>
        assert ColumnNames(columns) == ColumnNames(init) + [last.name];
        Failure(e)
      case Success(d) =>
        if d.TryGetValue(last.name).Some? then
          RepeatedColumnName(d, init, last);
          Failure(ExternalFailure("An item with the same key has already been added. Key: " + last.name))
        else
          NewColumnName(d, init, last);
          AddColumnType(d, init, last);
          Success(d.Set(last.name, last.dataType))
  }

  /** A column whose name the map of the earlier columns already finds repeats one of
      their names ignoring case. */
  lemma RepeatedColumnName(d: CiDictionary<ClrType>, init: seq<DataColumn>, last: DataColumn)
    requires d.Keys() == ColumnNames(init) && d.TryGetValue(last.name).Some?
    ensures !Distinct(ColumnNames(init + [last]))
  {
    var k := IndexOf(d.Keys(), last.name, true).value;
    var names := ColumnNames(init + [last]);
    assert names[k] == d.Keys()[k] && names[|init|] == last.name;
    assert EqualsIgnoreCase(names[k], names[|init|]);
  }

  /** A column whose name the map of the earlier, distinct columns does not find keeps the
      names distinct. */
  lemma NewColumnName(d: CiDictionary<ClrType>, init: seq<DataColumn>, last: DataColumn)
    requires d.Valid() && d.Keys() == ColumnNames(init) && d.TryGetValue(last.name).None?
    ensures Distinct(ColumnNames(init + [last]))
  {
    var names := ColumnNames(init + [last]);
    assert forall j | 0 <= j < |init| :: !Matches(d.Keys()[j], last.name, true);
    forall i, j | 0 <= i < j < |names| ensures !EqualsIgnoreCase(names[i], names[j]) {
      assert names[i] == d.Keys()[i];
      if j < |init| {
        assert names[j] == d.Keys()[j];
      } else {
        assert names[j] == last.name && !Matches(d.Keys()[i], last.name, true);
      }
    }
  }

  /** Adding a new column to the map of the earlier ones keeps every lookup and finds the
      new column's type under its name. */
  lemma AddColumnType(d: CiDictionary<ClrType>, init: seq<DataColumn>, last: DataColumn)
    requires d.Valid() && d.Keys() == ColumnNames(init) && d.TryGetValue(last.name).None?
    requires forall i | 0 <= i < |init| :: d.TryGetValue(init[i].name) == Some(init[i].dataType)
    ensures var d' := d.Set(last.name, last.dataType);
      && d'.Keys() == ColumnNames(init + [last]) && d'.Valid()
      && forall i | 0 <= i < |init| + 1 :: d'.TryGetValue((init + [last])[i].name) == Some((init + [last])[i].dataType)
  {
    var columns := init + [last];
    assert ColumnNames(columns) == ColumnNames(init) + [last.name];
    var d' := d.Set(last.name, last.dataType);
    forall i | 0 <= i < |columns|
      ensures d'.TryGetValue(columns[i].name) == Some(columns[i].dataType)
    {
      SetThenLookup(d, last.name, last.dataType, columns[i].name);
    }
    SetThenLookup(d, last.name, last.dataType, last.name);
  }

  /** The table's columns that the loaded dictionary holds, in column order. */
  function LoadedColumns(names: seq<string>, entity: map<string, Value>): (r: seq<string>)
    ensures forall x :: x in r <==> x in names && x in entity
  {
    if |names| == 0 then []
    else
      var rest := LoadedColumns(names[1..], entity);
      assert forall x :: x in names <==> x == names[0] || x in names[1..];
      if names[0] in entity then [names[0]] + rest else rest
  }

  lemma {:induction false} LoadedColumnsDistinct(names: seq<string>, entity: map<string, Value>)
    requires Distinct(names)
    ensures NoDuplicates(LoadedColumns(names, entity))
  {
    if |names| > 0 {
      assert Distinct(names[1..]) by {
        forall i, j | 0 <= i < j < |names[1..]| ensures !EqualsIgnoreCase(names[1..][i], names[1..][j]) {
          assert names[1..][i] == names[i + 1] && names[1..][j] == names[j + 1];
        }
      }
      LoadedColumnsDistinct(names[1..], entity);
      assert names[0] !in names[1..] by {
        forall k | 0 <= k < |names[1..]| ensures names[1..][k] != names[0] {
          assert !EqualsIgnoreCase(names[0], names[k + 1]);
        }
      }
      if names[0] in entity {
        ConsNoDuplicates(names[0], LoadedColumns(names[1..], entity));
      }
    }
  }

  /** Dropping the head of a list without duplicates leaves a list without duplicates that
      lacks the head. */
  lemma TailFacts(xs: seq<string>)
    ensures |xs| > 0 && NoDuplicates(xs) ==> NoDuplicates(xs[1..]) && xs[0] !in xs[1..]
  {
    if |xs| > 0 && NoDuplicates(xs) {
      assert forall k | 0 <= k < |xs[1..]| :: xs[1..][k] == xs[k + 1];
    }
  }

  lemma ConsFacts(x: string, rest: seq<string>)
    ensures NoDuplicates(rest) && x !in rest ==> NoDuplicates([x] + rest)
  {
    if NoDuplicates(rest) && x !in rest {
      ConsNoDuplicates(x, rest);
    }
  }

  /** `xs` without `x`. */
  function Without(xs: seq<string>, x: string): (r: seq<string>)
    ensures forall y :: y in r <==> y in xs && y != x
    ensures NoDuplicates(xs) ==> NoDuplicates(r)
  {
    if |xs| == 0 then []
    else
      var rest := Without(xs[1..], x);
      assert forall y :: y in xs <==> y == xs[0] || y in xs[1..];
      TailFacts(xs);
      ConsFacts(xs[0], rest);
      if xs[0] == x then rest else [xs[0]] + rest
  }

  ghost predicate OrdinalSorted(s: seq<string>) {
    forall i, j | 0 <= i < j < |s| :: LexLessOrEqual(s[i], s[j])
  }

  function InsertOrdinal(x: string, s: seq<string>): (r: seq<string>)
    requires OrdinalSorted(s)
    ensures OrdinalSorted(r)
    ensures forall y :: y in r <==> y == x || y in s
    ensures NoDuplicates(s) && x !in s ==> NoDuplicates(r)
  {
    if |s| == 0 then [x]
    else if LexLessOrEqual(x, s[0]) then
      assert forall j | 0 <= j < |s| :: LexLessOrEqual(x, s[j]) by {
        forall j | 0 <= j < |s| ensures LexLessOrEqual(x, s[j]) {
          if j > 0 {
            LexTransitive(x, s[0], s[j]);
          }
        }
      }
      ConsFacts(x, s);
      [x] + s
    else
      var rest := InsertOrdinal(x, s[1..]);
      LexTotal(x, s[0]);
      TailFacts(s);
      assert forall y :: y in s <==> y == s[0] || y in s[1..];
      assert forall k | 0 <= k < |rest| :: LexLessOrEqual(s[0], rest[k]) by {
        forall k | 0 <= k < |rest| ensures LexLessOrEqual(s[0], rest[k]) {
          assert rest[k] in rest;
          if rest[k] != x {
            var j :| 0 <= j < |s[1..]| && s[1..][j] == rest[k];
            assert s[j + 1] == rest[k];
          }
        }
      }
      ConsFacts(s[0], rest);
      [s[0]] + rest
  }

  /** Ordinal insertion sort. */
  function SortOrdinal(s: seq<string>): (r: seq<string>)
    ensures OrdinalSorted(r)
    ensures forall y :: y in r <==> y in s
    ensures NoDuplicates(s) ==> NoDuplicates(r)
  {
    if |s| == 0 then []
    else
      TailFacts(s);
      assert forall y :: y in s <==> y == s[0] || y in s[1..];
      InsertOrdinal(s[0], SortOrdinal(s[1..]))
  }

  /** The order in which EF Core lists an entity type's properties: the key property
      first, then the others in ordinal order of their names. */
  function PropertyOrder(names: seq<string>, key: string): (r: seq<string>)
    ensures forall x :: x in r <==> x in names
    ensures NoDuplicates(names) ==> NoDuplicates(r)
    ensures key in names ==> |r| > 0 && r[0] == key && key !in r[1..] && OrdinalSorted(r[1..])
    ensures key !in names ==> OrdinalSorted(r)
  {
    var others := SortOrdinal(Without(names, key));
    ConsFacts(key, others);
    if key in names then
      assert ([key] + others)[1..] == others;
      [key] + others
    else others
  }

  /** The entity's properties in the order EF lists them: the table's columns that the
      loaded dictionary holds, the key property first, then the others in ordinal order. */
  function PropertiesOf(names: seq<string>, entity: map<string, Value>, key: string): (r: seq<string>)
    ensures forall x :: x in r <==> x in names && x in entity
    ensures key in names && key in entity ==> |r| > 0 && r[0] == key && key !in r[1..] && OrdinalSorted(r[1..])
    ensures !(key in names && key in entity) ==> OrdinalSorted(r)
  {
    PropertyOrder(LoadedColumns(names, entity), key)
  }

  lemma PropertiesOfDistinct(names: seq<string>, entity: map<string, Value>, key: string)
    requires Distinct(names)
    ensures NoDuplicates(PropertiesOf(names, entity, key))
  {
    LoadedColumnsDistinct(names, entity);
  }

  /** The CLR type of each property, as the column-type map finds it. */
  function PropertyTypes(columnTypes: CiDictionary<ClrType>, properties: seq<string>): (r: map<string, ClrType>)
    ensures forall p | p in r :: p in properties && columnTypes.TryGetValue(p) == Some(r[p])
  {
    map p | p in properties && columnTypes.TryGetValue(p).Some? :: columnTypes.TryGetValue(p).value
  }

  /** Every property named after a column gets that column's type. */
  lemma PropertyTypesOfColumns(columns: seq<DataColumn>, properties: seq<string>)
    requires ColumnTypeMap(columns).Success?
    requires forall p | p in properties :: p in ColumnNames(columns)
    ensures var types := PropertyTypes(ColumnTypeMap(columns).value, properties);
      forall i | 0 <= i < |columns| && columns[i].name in properties ::
        columns[i].name in types && types[columns[i].name] == columns[i].dataType
  {
  }

  /** How a call to `StartRowTrackingAsync` ends. */
  datatype StartOutcome =
    | Rejected(error: Failure)
      /** The context exists; the key conversion threw and nothing disposes the context. */
    | ConversionFailed(descriptor: Descriptor, error: Failure)
      /** The context exists and was disposed before the exception. */
    | NotFound(descriptor: Descriptor, key: Value)
    | Loaded(descriptor: Descriptor, key: Value, entry: Entry)

  /** The key `FindAsync` receives: converted to the column's CLR type when the table knows
      that column (in any casing) and the value is not null. */
  function FindKey(columnTypes: CiDictionary<ClrType>, primaryKeyColumn: string, primaryKeyValue: Value,
                   convert: (Value, ClrType) -> Result<Value, Failure>): Result<Value, Failure>
  {
    match columnTypes.TryGetValue(primaryKeyColumn)
    case Some(t) => if primaryKeyValue != Null then convert(primaryKeyValue, t) else Success(primaryKeyValue)
    case None => Success(primaryKeyValue)
  }

  /**
    `StartRowTrackingAsync` as a function of its inputs. `convert` stands for
    `Convert.ChangeType`; `rows` for what `FindAsync` returns, keyed by primary-key value.
  */
  function PlanStart(databaseName: string, tableName: string, primaryKeyColumn: string,
                     primaryKeyValue: Value, columns: seq<DataColumn>,
                     convert: (Value, ClrType) -> Result<Value, Failure>,
                     rows: map<Value, map<string, Value>>): StartOutcome
  {
    if IsBlank(databaseName) then Rejected(ArgumentException("databaseName", DatabaseNameEmpty))
    else if IsBlank(tableName) then Rejected(ArgumentException("tableName", TableNameEmpty))
    else if IsBlank(primaryKeyColumn) then Rejected(ArgumentException("primaryKeyColumn", PrimaryKeyColumnEmpty))
    else match ColumnTypeMap(columns)
      case Failure(e) => Rejected(e)
      case Success(types) =>
        var descriptor := Descriptor(BuildSafeEntityName(databaseName, tableName), tableName, primaryKeyColumn, types);
        match FindKey(types, primaryKeyColumn, primaryKeyValue, convert)
        case Failure(e) => ConversionFailed(descriptor, e)
        case Success(key) =>
          if key !in rows then NotFound(descriptor, key)
          else
            var entity := rows[key];
            var properties := PropertiesOf(ColumnNames(columns), entity, primaryKeyColumn);
            Loaded(descriptor, key, LoadedEntry(entity, properties, PropertyTypes(types, properties), primaryKeyColumn))
  }

  /** The three name checks come first, in order, and each blank name is reported with its
      own parameter; no context is created for a rejected call. */
  lemma StartChecksNamesFirst(databaseName: string, tableName: string, primaryKeyColumn: string,
                              primaryKeyValue: Value, columns: seq<DataColumn>,
                              convert: (Value, ClrType) -> Result<Value, Failure>,
                              rows: map<Value, map<string, Value>>)
    ensures var o := PlanStart(databaseName, tableName, primaryKeyColumn, primaryKeyValue, columns, convert, rows);
      && (IsBlank(databaseName) || IsBlank(tableName) || IsBlank(primaryKeyColumn) ==> o.Rejected? && o.error.ArgumentException?)
      && (IsBlank(databaseName) ==> o.error.paramName == "databaseName")
      && (!IsBlank(databaseName) && IsBlank(tableName) ==> o.error.paramName == "tableName")
      && (!IsBlank(databaseName) && !IsBlank(tableName) && IsBlank(primaryKeyColumn) ==>
            o.error.paramName == "primaryKeyColumn")
      && (o.Rejected? <==> IsBlank(databaseName) || IsBlank(tableName) || IsBlank(primaryKeyColumn)
                           || !Distinct(ColumnNames(columns)))
  {
  }

  /** A session that starts tracks an entry that is well formed and clean: every property
      holds the value the row was loaded with, nothing is flagged or faulty and the state
      is `Unchanged`, so the first snapshot succeeds and is empty; the descriptor names the
      entity after database and table. The properties are the table's columns the row
      holds, each of its column's type, the key column first and the others in ordinal
      order. */
  lemma LoadedEntryIsClean(databaseName: string, tableName: string, primaryKeyColumn: string,
                           primaryKeyValue: Value, columns: seq<DataColumn>,
                           convert: (Value, ClrType) -> Result<Value, Failure>,
                           rows: map<Value, map<string, Value>>)
    requires PlanStart(databaseName, tableName, primaryKeyColumn, primaryKeyValue, columns, convert, rows).Loaded?
    ensures var o := PlanStart(databaseName, tableName, primaryKeyColumn, primaryKeyValue, columns, convert, rows);
      && WellFormed(o.entry) && !HasFaulty(o.entry)
      && o.key in rows && o.entry.current == rows[o.key]
      && SnapshotSpec(o.entry) == (Success(Snapshot("Unchanged", [])), o.entry)
      && o.descriptor.entityName == BuildSafeEntityName(databaseName, tableName)
      && (forall p :: p in o.entry.properties <==> p in ColumnNames(columns) && p in rows[o.key])
      && (forall i | 0 <= i < |columns| && columns[i].name in o.entry.properties ::
            o.entry.types[columns[i].name] == columns[i].dataType)
      && o.entry.key == primaryKeyColumn
      && (primaryKeyColumn in o.entry.properties ==>
            o.entry.properties[0] == primaryKeyColumn && OrdinalSorted(o.entry.properties[1..]))
      && (primaryKeyColumn !in o.entry.properties ==> OrdinalSorted(o.entry.properties))
  {
    var o := PlanStart(databaseName, tableName, primaryKeyColumn, primaryKeyValue, columns, convert, rows);
    var entity := rows[o.key];
    var properties := PropertiesOf(ColumnNames(columns), entity, primaryKeyColumn);
    PropertiesOfDistinct(ColumnNames(columns), entity, primaryKeyColumn);
    PropertyTypesOfColumns(columns, properties);
    var types := PropertyTypes(ColumnTypeMap(columns).value, properties);
    assert forall p | p in properties :: p in types by {
      forall p | p in properties ensures p in types {
        var i :| 0 <= i < |columns| && ColumnNames(columns)[i] == p;
      }
    }
    LoadedEntryWellFormed(entity, properties, types, primaryKeyColumn);
    SnapshotOfSound(o.entry);
    NothingModified(o.entry.properties);
  }

  /** The key handed to `FindAsync` is the value converted to the column's type when the
      table has a column of that name (in any casing) and the value is not null... */
  lemma FindKeyConvertsKnownColumn(columns: seq<DataColumn>, primaryKeyColumn: string, primaryKeyValue: Value,
                                   convert: (Value, ClrType) -> Result<Value, Failure>, i: nat)
    requires Distinct(ColumnNames(columns))
    requires i < |columns| && EqualsIgnoreCase(columns[i].name, primaryKeyColumn) && primaryKeyValue != Null
    ensures FindKey(ColumnTypeMap(columns).value, primaryKeyColumn, primaryKeyValue, convert)
              == convert(primaryKeyValue, columns[i].dataType)
  {
    LookupIgnoresCase(ColumnTypeMap(columns).value, columns[i].name, primaryKeyColumn);
  }

  /** ...and the value as given otherwise. */
  lemma FindKeyKeepsOtherValues(columns: seq<DataColumn>, primaryKeyColumn: string, primaryKeyValue: Value,
                                convert: (Value, ClrType) -> Result<Value, Failure>)
    requires Distinct(ColumnNames(columns))
    requires primaryKeyValue == Null || forall j | 0 <= j < |columns| :: !EqualsIgnoreCase(columns[j].name, primaryKeyColumn)
    ensures FindKey(ColumnTypeMap(columns).value, primaryKeyColumn, primaryKeyValue, convert) == Success(primaryKeyValue)
  {
  }

  /** A call that passes the checks goes to `FindAsync` with that key, or fails with what
      the conversion threw. */
  lemma StartLooksUpFindKey(databaseName: string, tableName: string, primaryKeyColumn: string,
                            primaryKeyValue: Value, columns: seq<DataColumn>,
                            convert: (Value, ClrType) -> Result<Value, Failure>,
                            rows: map<Value, map<string, Value>>)
    requires !IsBlank(databaseName) && !IsBlank(tableName) && !IsBlank(primaryKeyColumn)
    requires Distinct(ColumnNames(columns))
    ensures var o := PlanStart(databaseName, tableName, primaryKeyColumn, primaryKeyValue, columns, convert, rows);
      var k := FindKey(ColumnTypeMap(columns).value, primaryKeyColumn, primaryKeyValue, convert);
      && (o.ConversionFailed? <==> k.Failure?)
      && (k.Failure? ==> o.error == k.error)
      && (k.Success? ==> o.key == k.value && (o.Loaded? <==> k.value in rows))
  {
  }

  /**
    `StartRowTrackingAsync`. Returns the context it created (if any) beside the outcome, so
    that what becomes of it is visible: disposed when the row is not found, left open when
    the key conversion throws, owned by the session on success.
  */
  method StartRowTracking(cs: ConnectionSettings, databaseName: string, tableName: string,
                          primaryKeyColumn: string, primaryKeyValue: Value, columns: seq<DataColumn>,
                          convert: (Value, ClrType) -> Result<Value, Failure>,
                          rows: map<Value, map<string, Value>>)
    returns (context: EfDbContext?, result: Result<EfRowTrackingSession, Failure>)
    ensures var o := PlanStart(databaseName, tableName, primaryKeyColumn, primaryKeyValue, columns, convert, rows);
      && (o.Rejected? ==> context == null && result == Failure(o.error))
      && (o.ConversionFailed? ==> context != null && fresh(context) && !context.disposed && result == Failure(o.error))
      && (o.NotFound? ==> (context != null && fresh(context) && context.disposed
                           && result == Failure(InvalidOperationException(RowNotLoaded))))
      && (o.Loaded? ==> && context != null && fresh(context) && !context.disposed
                        && context.connection == BuildConnectionString(cs, Some(databaseName))
                        && context.descriptor == Some(o.descriptor)
                        && result.Success? && fresh(result.value)
                        && result.value.context == context
                        && result.value.Model() == o.entry && result.value.Valid())
  {
    context := null;
    if IsBlank(databaseName) {
      return null, Failure(ArgumentException("databaseName", DatabaseNameEmpty));
    }
    if IsBlank(tableName) {
      return null, Failure(ArgumentException("tableName", TableNameEmpty));
    }
    if IsBlank(primaryKeyColumn) {
      return null, Failure(ArgumentException("primaryKeyColumn", PrimaryKeyColumnEmpty));
    }
    var connection := BuildConnectionString(cs, Some(databaseName));
    var columnTypes := ColumnTypeMap(columns);
    if columnTypes.Failure? {
      return null, Failure(columnTypes.error);
    }
    var descriptor := Descriptor(BuildSafeEntityName(databaseName, tableName), tableName, primaryKeyColumn, columnTypes.value);
    context := new EfDbContext(connection, Some(descriptor));
    var key := FindKey(columnTypes.value, primaryKeyColumn, primaryKeyValue, convert);
    if key.Failure? {
      return context, Failure(key.error);
    }
    if key.value !in rows {
      context.Dispose();
      return context, Failure(InvalidOperationException(RowNotLoaded));
    }
    var entity := rows[key.value];
    var properties := PropertiesOf(ColumnNames(columns), entity, primaryKeyColumn);
    var types := PropertyTypes(columnTypes.value, properties);
    LoadedEntryIsClean(databaseName, tableName, primaryKeyColumn, primaryKeyValue, columns, convert, rows);
    var session := new EfRowTrackingSession(context, LoadedEntry(entity, properties, types, primaryKeyColumn));
    result := Success(session);
  }

  // ---------------------------------------------------------------------------------------
  // Compiled-model cache keys

  /** A context as the cache-key factory sees it: an `EfDbContext` (or a subclass) with or
      without a tracking key, or any other context type. */
  datatype ContextInfo<K> = EfContext(runtimeType: string, trackingCacheKey: Option<K>) | OtherContext(runtimeType: string)

  /** The tuple the factory returns: `(type, key, designTime)` or `(type, designTime)`. */
  datatype CacheKey<K> = TrackedKey(contextType: string, key: K, designTime: bool) | PlainKey(contextType: string, designTime: bool)

  /** `TrackingModelCacheKeyFactory.Create`. */
  function CreateCacheKey<K>(context: ContextInfo<K>, designTime: bool): (r: CacheKey<K>)
    ensures r.contextType == context.runtimeType && r.designTime == designTime
    ensures r.TrackedKey? <==> context.EfContext? && context.trackingCacheKey.Some?
  {
    match context
    case EfContext(t, Some(k)) => TrackedKey(t, k, designTime)
    case _ => PlainKey(context.runtimeType, designTime)
  }

  /** Two contexts share a compiled model exactly when their keys are equal: two tracking
      contexts iff same type, same tracking key and same design-time flag; a tracking
      context never with a context without one; two contexts without one iff same type
      and flag. */
  lemma SharedModelIff<K>(a: ContextInfo<K>, b: ContextInfo<K>, da: bool, db: bool)
    ensures a.EfContext? && a.trackingCacheKey.Some? && b.EfContext? && b.trackingCacheKey.Some? ==>
              (CreateCacheKey(a, da) == CreateCacheKey(b, db) <==>
                 a.runtimeType == b.runtimeType && a.trackingCacheKey.value == b.trackingCacheKey.value && da == db)
    ensures (a.EfContext? && a.trackingCacheKey.Some?) && !(b.EfContext? && b.trackingCacheKey.Some?) ==>
              CreateCacheKey(a, da) != CreateCacheKey(b, db)
    ensures !(a.EfContext? && a.trackingCacheKey.Some?) && !(b.EfContext? && b.trackingCacheKey.Some?) ==>
              (CreateCacheKey(a, da) == CreateCacheKey(b, db) <==> a.runtimeType == b.runtimeType && da == db)
  {
  }
}
