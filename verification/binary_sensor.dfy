/**
 * The OpenMediaVault binary-sensor platform: the fixed table of sensor
 * descriptors, the reconciliation that keeps one entity per table row in a
 * per-config-entry registry, and the read-only projections every entity
 * exposes to the host (name, unique id, device info, on/off value).
 */
module BinarySensor {
  import opened Wrappers

  /** A value the controller stores under one field of a resource path. */
  datatype Value = BoolValue(b: bool) | NumberValue(n: int) | TextValue(t: string)

  /** One row of the sensor table: display label, device group, resource path and field name. */
  datatype Descriptor = Descriptor(displayLabel: string, group: Option<string>, dataPath: string, dataAttr: string)

  /** The key under which a descriptor stores its group. */
  const AttrGroup: string := "group"

  /** The sensor table, in the iteration order of its dictionary. */
  const SensorTypes: seq<(string, Descriptor)> := [
    ("system_pkgUpdatesAvailable",
     Descriptor("Update available", Some("System"), "hwinfo", "pkgUpdatesAvailable")),
    ("system_rebootRequired",
     Descriptor("Reboot pending", Some("System"), "hwinfo", "rebootRequired")),
    ("system_configDirty",
     Descriptor("Config dirty", Some("System"), "hwinfo", "configDirty"))
  ]

  function Keys(table: seq<(string, Descriptor)>): seq<string>
  {
    seq(|table|, i requires 0 <= i < |table| => table[i].0)
  }

  /** The sensor keys, in table order. */
  const SensorKeys: seq<string> := Keys(SensorTypes)

  predicate Distinct(ks: seq<string>)
  {
    forall i, j :: 0 <= i < j < |ks| ==> ks[i] != ks[j]
  }

  /** The table is a dictionary: its three keys are pairwise different. */
  lemma SensorKeysDistinct()
    ensures |SensorKeys| == 3 && Distinct(SensorKeys)
  {
    assert SensorKeys[0][7] == 'p' && SensorKeys[1][7] == 'r' && SensorKeys[2][7] == 'c';
  }

  // ---------------------------------------------------------------------
  //  Registry reconciliation (update_items)
  // ---------------------------------------------------------------------

  /** A sensor entity as the registry holds it; `enabled` is what the host reports for it. */
  datatype Entity = Entity(inst: string, sensor: string, enabled: bool)

  /** A freshly built entity; the host reports an entity enabled until its registry says otherwise. */
  function NewEntity(inst: string, sensor: string): (e: Entity)
    ensures e.inst == inst && e.sensor == sensor && e.enabled
  {
    Entity(inst, sensor, true)
  }

  /** What one reconciliation asks of the host, in the order it asks. */
  datatype Effect =
    | ScheduleUpdate(itemId: string)    // refresh the state of an existing entity
    | AddEntities(batch: seq<Entity>)   // register new entities, with an immediate update

  /** The registry key of a sensor: the instance name, a dash, the sensor key. */
  function ItemId(inst: string, sensor: string): (id: string)
    ensures |id| == |inst| + 1 + |sensor|
    ensures id[..|inst|] == inst && id[|inst|] == '-' && id[|inst| + 1..] == sensor
  {
    inst + "-" + sensor
  }

  /** Within one instance, different sensors have different registry keys. */
  lemma ItemIdInjective(inst: string, a: string, b: string)
    requires ItemId(inst, a) == ItemId(inst, b)
    ensures a == b
  {
    assert a == ItemId(inst, a)[|inst| + 1..];
    assert b == ItemId(inst, b)[|inst| + 1..];
  }

  /** The registry keys of the sensor keys `keys`, in the same order. */
  function ItemIds(inst: string, keys: seq<string>): seq<string>
  {
    seq(|keys|, i requires 0 <= i < |keys| => ItemId(inst, keys[i]))
  }

  lemma ItemIdsSnoc(inst: string, pre: seq<string>, k: string)
    ensures ItemIds(inst, pre + [k]) == ItemIds(inst, pre) + [ItemId(inst, k)]
  {
    assert forall j :: 0 <= j < |pre| + 1 ==>
      ItemIds(inst, pre + [k])[j] == (ItemIds(inst, pre) + [ItemId(inst, k)])[j];
  }

  /** `xs` is `ys` with some elements left out, the others kept in order. */
  predicate Subsequence<T(==)>(xs: seq<T>, ys: seq<T>)
    decreases |ys|
  {
    if ys == [] then xs == []
    else
      Subsequence(xs, ys[..|ys| - 1])
      || (xs != [] && xs[|xs| - 1] == ys[|ys| - 1] && Subsequence(xs[..|xs| - 1], ys[..|ys| - 1]))
  }

  /** The sensor keys whose registry key is not in `known`: the sensors a pass creates. */
  function Missing(inst: string, keys: seq<string>, known: set<string>): seq<string>
  {
    if keys == [] then []
    else
      var k := keys[|keys| - 1];
      Missing(inst, keys[..|keys| - 1], known) + (if ItemId(inst, k) in known then [] else [k])
  }

  /** The registry keys of table sensors whose entity exists and is enabled: the updates a pass schedules. */
  function Scheduled(inst: string, keys: seq<string>, sensors: map<string, Entity>): seq<string>
  {
    if keys == [] then []
    else
      var id := ItemId(inst, keys[|keys| - 1]);
      Scheduled(inst, keys[..|keys| - 1], sensors) + (if id in sensors && sensors[id].enabled then [id] else [])
  }

  /** The entities a pass creates for the sensor keys `ks`, keyed by registry key. */
  function NewEntries(inst: string, ks: seq<string>): map<string, Entity>
  {
    if ks == [] then map[]
    else
      var k := ks[|ks| - 1];
      NewEntries(inst, ks[..|ks| - 1])[ItemId(inst, k) := NewEntity(inst, k)]
  }

  /** The batch handed to the host: one new entity per key of `ks`, in the same order. */
  function Batch(inst: string, ks: seq<string>): seq<Entity>
  {
    seq(|ks|, i requires 0 <= i < |ks| => NewEntity(inst, ks[i]))
  }

  function Updates(ids: seq<string>): seq<Effect>
  {
    seq(|ids|, i requires 0 <= i < |ids| => ScheduleUpdate(ids[i]))
  }

  /** The registry after one pass over the table `keys`. */
  function Reconciled(inst: string, keys: seq<string>, sensors: map<string, Entity>): map<string, Entity>
  {
    sensors + NewEntries(inst, Missing(inst, keys, sensors.Keys))
  }

  /** What one pass over the table `keys` asks of the host: the scheduled updates, then at most one batch. */
  function UpdateEffects(inst: string, keys: seq<string>, sensors: map<string, Entity>): seq<Effect>
  {
    var ms := Missing(inst, keys, sensors.Keys);
    Updates(Scheduled(inst, keys, sensors)) + (if ms == [] then [] else [AddEntities(Batch(inst, ms))])
  }

  /** A pass creates a sensor exactly when its key is in the table and its registry key is not yet known. */
  lemma {:induction false} MissingExactlyAbsent(inst: string, keys: seq<string>, known: set<string>)
    ensures forall k :: k in Missing(inst, keys, known) <==> k in keys && ItemId(inst, k) !in known
    ensures Missing(inst, keys, known) == [] <==> forall k :: k in keys ==> ItemId(inst, k) in known
  {
    if keys != [] {
      var pre, k := keys[..|keys| - 1], keys[|keys| - 1];
      MissingExactlyAbsent(inst, pre, known);
      assert keys == pre + [k];
    }
  }

  /** The sensors a pass creates come in table order. */
  lemma {:induction false} MissingInTableOrder(inst: string, keys: seq<string>, known: set<string>)
    ensures Subsequence(Missing(inst, keys, known), keys)
  {
    if keys != [] {
      var pre, k := keys[..|keys| - 1], keys[|keys| - 1];
      var ms := Missing(inst, pre, known);
      MissingInTableOrder(inst, pre, known);
      if ItemId(inst, k) in known {
        assert Missing(inst, keys, known) == ms;
        assert Subsequence(ms, pre);
      } else {
        var xs := ms + [k];
        assert Missing(inst, keys, known) == xs;
        assert xs[..|xs| - 1] == ms && xs[|xs| - 1] == k;
        assert Subsequence(xs[..|xs| - 1], pre);
      }
    }
  }

  /** Updates are scheduled in table order, at most one per table sensor. */
  lemma {:induction false} ScheduledInTableOrder(inst: string, keys: seq<string>, sensors: map<string, Entity>)
    ensures Subsequence(Scheduled(inst, keys, sensors), ItemIds(inst, keys))
  {
    if keys != [] {
      var pre, k := keys[..|keys| - 1], keys[|keys| - 1];
      var ids, id := ItemIds(inst, keys), ItemId(inst, k);
      var sc := Scheduled(inst, pre, sensors);
      ScheduledInTableOrder(inst, pre, sensors);
      assert keys == pre + [k];
      ItemIdsSnoc(inst, pre, k);
      assert ids[..|ids| - 1] == ItemIds(inst, pre) && ids[|ids| - 1] == id;
      if id in sensors && sensors[id].enabled {
        var xs := sc + [id];
        assert Scheduled(inst, keys, sensors) == xs;
        assert xs[..|xs| - 1] == sc && xs[|xs| - 1] == id;
      } else {
        assert Scheduled(inst, keys, sensors) == sc;
      }
    }
  }

  /** An update is scheduled exactly for the table sensors whose entity already exists and is enabled. */
  lemma {:induction false} ScheduledExactlyEnabled(inst: string, keys: seq<string>, sensors: map<string, Entity>)
    ensures forall id :: id in Scheduled(inst, keys, sensors) <==>
              id in ItemIds(inst, keys) && id in sensors && sensors[id].enabled
  {
    if keys != [] {
      var pre, k := keys[..|keys| - 1], keys[|keys| - 1];
      ScheduledExactlyEnabled(inst, pre, sensors);
      assert keys == pre + [k];
      ItemIdsSnoc(inst, pre, k);
    }
  }

  /** The new entries hold one fresh entity per given key, under its registry key, and nothing else. */
  lemma {:induction false} NewEntriesExactly(inst: string, ks: seq<string>)
    ensures forall k :: k in ks ==>
              ItemId(inst, k) in NewEntries(inst, ks) && NewEntries(inst, ks)[ItemId(inst, k)] == NewEntity(inst, k)
    ensures forall id :: id in NewEntries(inst, ks) ==> id in ItemIds(inst, ks)
  {
    if ks != [] {
      var pre, k := ks[..|ks| - 1], ks[|ks| - 1];
      NewEntriesExactly(inst, pre);
      assert ks == pre + [k];
      ItemIdsSnoc(inst, pre, k);
      forall k' | k' in pre && ItemId(inst, k') == ItemId(inst, k) ensures k' == k {
        ItemIdInjective(inst, k', k);
      }
    }
  }

  /** A registry key of a sub-table is a registry key of the table. */
  lemma ItemIdsOfSubset(inst: string, xs: seq<string>, ys: seq<string>)
    requires forall k :: k in xs ==> k in ys
    ensures forall id :: id in ItemIds(inst, xs) ==> id in ItemIds(inst, ys)
  {
    forall id | id in ItemIds(inst, xs) ensures id in ItemIds(inst, ys) {
      var i :| 0 <= i < |xs| && ItemIds(inst, xs)[i] == id;
      assert xs[i] in ys;
      var j :| 0 <= j < |ys| && ys[j] == xs[i];
      assert ItemIds(inst, ys)[j] == id;
    }
  }

  /** After a pass, every table sensor has an entry, and every entry is an old one or a table sensor's. */
  lemma ReconciledCoversTable(inst: string, keys: seq<string>, sensors: map<string, Entity>)
    ensures forall k :: k in keys ==> ItemId(inst, k) in Reconciled(inst, keys, sensors)
    ensures forall id :: id in Reconciled(inst, keys, sensors) ==> id in sensors || id in ItemIds(inst, keys)
  {
    var ms := Missing(inst, keys, sensors.Keys);
    MissingExactlyAbsent(inst, keys, sensors.Keys);
    NewEntriesExactly(inst, ms);
    ItemIdsOfSubset(inst, ms, keys);
  }

  /** A pass never replaces an entry, and it creates a fresh entity exactly for the table sensors that had none. */
  lemma ReconciledKeepsExisting(inst: string, keys: seq<string>, sensors: map<string, Entity>)
    ensures forall id :: id in sensors ==>
              (id in Reconciled(inst, keys, sensors) && Reconciled(inst, keys, sensors)[id] == sensors[id])
    ensures forall k :: (k in keys && ItemId(inst, k) !in sensors) ==>
              (ItemId(inst, k) in Reconciled(inst, keys, sensors) &&
               Reconciled(inst, keys, sensors)[ItemId(inst, k)] == NewEntity(inst, k))
  {
    var ms := Missing(inst, keys, sensors.Keys);
    MissingExactlyAbsent(inst, keys, sensors.Keys);
    NewEntriesExactly(inst, ms);
    forall id | id in NewEntries(inst, ms) ensures id !in sensors {
      var i :| 0 <= i < |ms| && ItemIds(inst, ms)[i] == id;
      assert ms[i] in ms;
    }
  }

  /** Subsequences survive turning keys into new entities. */
  lemma {:induction false} BatchKeepsOrder(inst: string, xs: seq<string>, ys: seq<string>)
    requires Subsequence(xs, ys)
    ensures Subsequence(Batch(inst, xs), Batch(inst, ys))
    decreases |ys|
  {
    if ys != [] {
      var bx, bys := Batch(inst, xs), Batch(inst, ys);
      assert bys[..|bys| - 1] == Batch(inst, ys[..|ys| - 1]);
      if Subsequence(xs, ys[..|ys| - 1]) {
        BatchKeepsOrder(inst, xs, ys[..|ys| - 1]);
      } else {
        assert bx[..|bx| - 1] == Batch(inst, xs[..|xs| - 1]);
        BatchKeepsOrder(inst, xs[..|xs| - 1], ys[..|ys| - 1]);
      }
    }
  }

  /**
   * The batch holds a new entity for exactly the table sensors that had no
   * entry before the pass, in table order.
   */
  lemma NewBatchIsAbsentInTableOrder(inst: string, keys: seq<string>, sensors: map<string, Entity>)
    ensures forall k :: NewEntity(inst, k) in Batch(inst, Missing(inst, keys, sensors.Keys)) <==>
              k in keys && ItemId(inst, k) !in sensors
    ensures Subsequence(Batch(inst, Missing(inst, keys, sensors.Keys)), Batch(inst, keys))
  {
    var ms := Missing(inst, keys, sensors.Keys);
    MissingExactlyAbsent(inst, keys, sensors.Keys);
    forall k ensures NewEntity(inst, k) in Batch(inst, ms) <==> k in ms {
      if k in ms {
        var i :| 0 <= i < |ms| && ms[i] == k;
        assert Batch(inst, ms)[i] == NewEntity(inst, k);
      }
    }
    MissingInTableOrder(inst, keys, sensors.Keys);
    BatchKeepsOrder(inst, ms, keys);
  }

  /** Only entries that existed before the pass and are enabled get an update; new entities never do. */
  lemma NewSensorsNotScheduled(inst: string, keys: seq<string>, sensors: map<string, Entity>)
    ensures forall k :: k in Missing(inst, keys, sensors.Keys) ==> ItemId(inst, k) !in Scheduled(inst, keys, sensors)
    ensures forall id :: id in Scheduled(inst, keys, sensors) ==> id in sensors && sensors[id].enabled
  {
    MissingExactlyAbsent(inst, keys, sensors.Keys);
    ScheduledExactlyEnabled(inst, keys, sensors);
  }

  /** The batch-add is asked for at most once, as the last effect, and only with a non-empty batch. */
  lemma AddEntitiesAtMostOnce(inst: string, keys: seq<string>, sensors: map<string, Entity>)
    ensures forall i :: (0 <= i < |UpdateEffects(inst, keys, sensors)| &&
                         UpdateEffects(inst, keys, sensors)[i].AddEntities?) ==>
              (i == |UpdateEffects(inst, keys, sensors)| - 1 && UpdateEffects(inst, keys, sensors)[i].batch != [])
    ensures (exists i :: 0 <= i < |UpdateEffects(inst, keys, sensors)| &&
               UpdateEffects(inst, keys, sensors)[i].AddEntities?) <==>
            exists k :: k in keys && ItemId(inst, k) !in sensors
  {
    var ms := Missing(inst, keys, sensors.Keys);
    var effects := UpdateEffects(inst, keys, sensors);
    MissingExactlyAbsent(inst, keys, sensors.Keys);
    if ms != [] {
      assert ms[0] in ms;
      assert effects[|effects| - 1].AddEntities?;
    }
  }

  /** A second pass over the registry a first pass produced creates nothing, asks for no batch and changes nothing. */
  lemma UpdateIdempotent(inst: string, keys: seq<string>, sensors: map<string, Entity>)
    ensures Missing(inst, keys, Reconciled(inst, keys, sensors).Keys) == []
    ensures Reconciled(inst, keys, Reconciled(inst, keys, sensors)) == Reconciled(inst, keys, sensors)
    ensures forall e :: e in UpdateEffects(inst, keys, Reconciled(inst, keys, sensors)) ==> e.ScheduleUpdate?
  {
    var r := Reconciled(inst, keys, sensors);
    ReconciledCoversTable(inst, keys, sensors);
    MissingExactlyAbsent(inst, keys, r.Keys);
    assert Missing(inst, keys, r.Keys) == [];
  }

  /** Over an empty registry every table sensor is missing and none is scheduled. */
  lemma {:induction false} FirstPassFromEmpty(inst: string, keys: seq<string>)
    ensures Missing(inst, keys, {}) == keys
    ensures Scheduled(inst, keys, map[]) == []
  {
    if keys != [] {
      FirstPassFromEmpty(inst, keys[..|keys| - 1]);
      assert keys == keys[..|keys| - 1] + [keys[|keys| - 1]];
    }
  }

  /** A pass over an empty registry creates every table sensor, in one batch, and schedules nothing. */
  lemma FirstUpdateAddsAll(inst: string, keys: seq<string>)
    ensures Reconciled(inst, keys, map[]) == NewEntries(inst, keys)
    ensures UpdateEffects(inst, keys, map[]) == if keys == [] then [] else [AddEntities(Batch(inst, keys))]
  {
    var empty: map<string, Entity> := map[];
    assert empty.Keys == {};
    FirstPassFromEmpty(inst, keys);
  }

  /** The registry of one config entry: sensor entities keyed by registry key. */
  class SensorRegistry {
    var sensors: map<string, Entity>

    constructor ()
      ensures sensors == map[]
    {
      sensors := map[];
    }

    /**
     * One pass over the sensor table: schedule an update for each known
     * enabled sensor, create the missing ones, and hand the new ones to the
     * host in a single batch when there are any.
     */
    method UpdateItems(inst: string) returns (effects: seq<Effect>)
      modifies this
      ensures sensors == Reconciled(inst, SensorKeys, old(sensors))
      ensures effects == UpdateEffects(inst, SensorKeys, old(sensors))
    {
      var keys := SensorKeys;
      SensorKeysDistinct();
      ghost var before := sensors;
      var newSensors: seq<Entity> := [];
      effects := [];
      var i := 0;
      while i < |keys|
        invariant 0 <= i <= |keys|
        invariant sensors == before + NewEntries(inst, Missing(inst, keys[..i], before.Keys))
        invariant newSensors == Batch(inst, Missing(inst, keys[..i], before.Keys))
        invariant effects == Updates(Scheduled(inst, keys[..i], before))
      {
        var sensor := keys[i];
        var itemId := ItemId(inst, sensor);
        ghost var ms := Missing(inst, keys[..i], before.Keys);
        NotYetCreated(inst, keys, i, before.Keys);
        PrefixStep(inst, keys, i, before);
        if itemId in sensors {
          ScheduledStep(Scheduled(inst, keys[..i], before), itemId, sensors[itemId].enabled);
          if sensors[itemId].enabled {
            effects := effects + [ScheduleUpdate(itemId)];
          }
          assert itemId in before && ms + [] == ms;
        } else {
          assert itemId !in before;
          CreatedStep(inst, ms, sensor, before);
          ScheduledStep(Scheduled(inst, keys[..i], before), itemId, false);
          sensors := sensors[itemId := NewEntity(inst, sensor)];
          newSensors := newSensors + [sensors[itemId]];
        }
        i := i + 1;
      }
      assert keys[..|keys|] == keys;
      if newSensors != [] {
        effects := effects + [AddEntities(newSensors)];
      }
    }
  }

  /** While a pass is at key `i`, the entities it has created so far do not include that key's. */
  lemma NotYetCreated(inst: string, keys: seq<string>, i: nat, known: set<string>)
    requires Distinct(keys) && i < |keys|
    ensures ItemId(inst, keys[i]) !in NewEntries(inst, Missing(inst, keys[..i], known))
  {
    var ms := Missing(inst, keys[..i], known);
    MissingExactlyAbsent(inst, keys[..i], known);
    NewEntriesExactly(inst, ms);
    forall j | 0 <= j < |ms| ensures ItemIds(inst, ms)[j] != ItemId(inst, keys[i]) {
      assert ms[j] in keys[..i];
      if ItemId(inst, ms[j]) == ItemId(inst, keys[i]) {
        ItemIdInjective(inst, ms[j], keys[i]);
      }
    }
  }

  /** The parts of a pass over the first `i + 1` keys, in terms of the pass over the first `i`. */
  lemma PrefixStep(inst: string, keys: seq<string>, i: nat, before: map<string, Entity>)
    requires i < |keys|
    ensures var id := ItemId(inst, keys[i]);
            && Missing(inst, keys[..i + 1], before.Keys) ==
               Missing(inst, keys[..i], before.Keys) + (if id in before then [] else [keys[i]])
            && Scheduled(inst, keys[..i + 1], before) ==
               Scheduled(inst, keys[..i], before) + (if id in before && before[id].enabled then [id] else [])
  {
    assert keys[..i + 1][..i] == keys[..i];
    assert keys[..i + 1][i] == keys[i];
  }

  /** Adding one created key adds its entity to the new entries and to the batch. */
  lemma CreatedStep(inst: string, ms: seq<string>, k: string, before: map<string, Entity>)
    ensures before + NewEntries(inst, ms + [k]) ==
            (before + NewEntries(inst, ms))[ItemId(inst, k) := NewEntity(inst, k)]
    ensures Batch(inst, ms + [k]) == Batch(inst, ms) + [NewEntity(inst, k)]
  {
    var xs := ms + [k];
    assert xs[..|xs| - 1] == ms;
    assert NewEntries(inst, xs) == NewEntries(inst, ms)[ItemId(inst, k) := NewEntity(inst, k)];
  }

  lemma ScheduledStep(ids: seq<string>, id: string, due: bool)
    ensures Updates(ids + (if due then [id] else [])) == Updates(ids) + (if due then [ScheduleUpdate(id)] else [])
  {
    if !due {
      assert ids + [] == ids;
    }
  }

  /**
   * Platform setup for one config entry: an empty registry and a first pass,
   * which creates every table sensor in one batch.
   */
  method SetupEntry(inst: string) returns (registry: SensorRegistry, effects: seq<Effect>)
    ensures fresh(registry)
    ensures registry.sensors == NewEntries(inst, SensorKeys)
    ensures effects == [AddEntities(Batch(inst, SensorKeys))]
  {
    registry := new SensorRegistry();
    effects := registry.UpdateItems(inst);
    FirstUpdateAddsAll(inst, SensorKeys);
  }

  // ---------------------------------------------------------------------
  //  Entity projections
  // ---------------------------------------------------------------------

  predicate IsUpper(c: char)
  {
    'A' <= c <= 'Z'
  }

  function LowerChar(c: char): char
  {
    if IsUpper(c) then (c as int + 32) as char else c
  }

  /** Lower-casing, for the ASCII letters. */
  function Lower(s: string): (r: string)
    ensures |r| == |s|
    ensures forall i :: 0 <= i < |r| ==> !IsUpper(r[i])
    ensures forall i :: 0 <= i < |s| && !IsUpper(s[i]) ==> r[i] == s[i]
    ensures forall i :: 0 <= i < |s| && IsUpper(s[i]) ==> r[i] as int == s[i] as int + 32
  {
    seq(|s|, i requires 0 <= i < |s| => LowerChar(s[i]))
  }

  lemma LowerAppend(a: string, b: string)
    ensures Lower(a + b) == Lower(a) + Lower(b)
  {
    assert forall i :: 0 <= i < |a + b| ==> Lower(a + b)[i] == (Lower(a) + Lower(b))[i];
  }

  /** The entity's unique id: the registry key, lower-cased. */
  function UniqueId(inst: string, sensor: string): (uid: string)
    ensures uid == Lower(ItemId(inst, sensor))
  {
    LowerAppend(inst + "-", sensor);
    LowerAppend(inst, "-");
    Lower(inst) + "-" + Lower(sensor)
  }

  /** Lower-casing a second time changes nothing. */
  lemma LowerIdempotent(s: string)
    ensures Lower(Lower(s)) == Lower(s)
  {
  }

  /** The unique id does not depend on the letter case of the instance name or the sensor key. */
  lemma UniqueIdIgnoresCase(inst: string, sensor: string)
    ensures UniqueId(Lower(inst), Lower(sensor)) == UniqueId(inst, sensor)
    ensures forall i :: 0 <= i < |UniqueId(inst, sensor)| ==> !IsUpper(UniqueId(inst, sensor)[i])
  {
    LowerIdempotent(inst);
    LowerIdempotent(sensor);
  }

  /** Within one instance, the three table sensors have three different unique ids. */
  lemma SensorUniqueIdsDistinct(inst: string)
    ensures forall i, j :: 0 <= i < j < |SensorKeys| ==> UniqueId(inst, SensorKeys[i]) != UniqueId(inst, SensorKeys[j])
  {
    SensorKeysDistinct();
    var n := |inst| + 1 + 7;
    assert UniqueId(inst, SensorKeys[0])[n] == 'p';
    assert UniqueId(inst, SensorKeys[1])[n] == 'r';
    assert UniqueId(inst, SensorKeys[2])[n] == 'c';
  }

  /** The display name: the instance name, a space, the descriptor's label. */
  function Name(inst: string, d: Descriptor): (name: string)
    ensures |name| == |inst| + 1 + |d.displayLabel|
    ensures name[..|inst|] == inst && name[|inst|] == ' ' && name[|inst| + 1..] == d.displayLabel
  {
    inst + " " + d.displayLabel
  }

  /** Within one instance, the three table sensors have three different names. */
  lemma SensorNamesDistinct(inst: string)
    ensures forall i, j :: 0 <= i < j < |SensorTypes| ==> Name(inst, SensorTypes[i].1) != Name(inst, SensorTypes[j].1)
  {
    var n := |inst| + 1;
    assert Name(inst, SensorTypes[0].1)[n] == 'U';
    assert Name(inst, SensorTypes[1].1)[n] == 'R';
    assert Name(inst, SensorTypes[2].1)[n] == 'C';
  }

  /** One element of a device's identifier set. */
  datatype DeviceIdentifier = DeviceIdentifier(domain: string, inst: string, kind: string, group: string)

  /** The device an entity belongs to. */
  datatype DeviceInfo = DeviceInfo(manufacturer: string, name: string, identifiers: Option<set<DeviceIdentifier>>)

  /** A dictionary lookup of a missing key. */
  datatype LookupError = KeyError(key: string)

  /**
   * The device description. The device name reads the descriptor's group
   * unconditionally, so a descriptor without a group fails before the
   * guarded `identifiers` entry is reached.
   */
  function GetDeviceInfo(domain: string, inst: string, d: Descriptor): (r: Result<DeviceInfo, LookupError>)
    ensures r.Ok? <==> d.group.Some?
    ensures r.Err? ==> r.error == KeyError(AttrGroup)
    ensures r.Ok? ==> && r.value.manufacturer == "OpenMediaVault"
                      && r.value.name == inst + " " + d.group.value
                      && r.value.identifiers == Some({DeviceIdentifier(domain, inst, "sensor", d.group.value)})
  {
    match d.group
    case None => Err(KeyError(AttrGroup))
    case Some(g) =>
      Ok(DeviceInfo("OpenMediaVault", inst + " " + g, Some({DeviceIdentifier(domain, inst, "sensor", g)})))
  }

  /** All three table sensors of one instance belong to the same device, "<inst> System", which has identifiers. */
  lemma SensorsShareOneDevice(domain: string, inst: string)
    ensures forall i :: 0 <= i < |SensorTypes| ==>
              GetDeviceInfo(domain, inst, SensorTypes[i].1) ==
              Ok(DeviceInfo("OpenMediaVault", inst + " System",
                            Some({DeviceIdentifier(domain, inst, "sensor", "System")})))
  {
    assert inst + " " + "System" == inst + " System";
  }

  /** The sensor's value: the descriptor's field of the path's data, or false when the field is absent. */
  function IsOn(d: Descriptor, data: map<string, Value>): (v: Value)
    ensures d.dataAttr !in data ==> v == BoolValue(false)
    ensures d.dataAttr in data ==> v == data[d.dataAttr]
  {
    if d.dataAttr in data then data[d.dataAttr] else BoolValue(false)
  }

  /** Writing a value into the sensor's field and reading the sensor gives that value back. */
  lemma IsOnAfterWrite(d: Descriptor, data: map<string, Value>, v: Value)
    ensures IsOn(d, data[d.dataAttr := v]) == v
  {
  }

  /** The sensor reads its own field only: other fields do not change its value. */
  lemma IsOnIgnoresOtherFields(d: Descriptor, data: map<string, Value>, field: string, v: Value)
    requires field != d.dataAttr
    ensures IsOn(d, data[field := v]) == IsOn(d, data)
    ensures IsOn(d, data - {field}) == IsOn(d, data)
  {
  }

  /**
   * With hardware info reporting pending updates and no reboot, and no
   * configDirty field, the three sensors read on, off and off.
   */
  lemma HwinfoScenario()
    ensures var hwinfo := map["pkgUpdatesAvailable" := BoolValue(true), "rebootRequired" := BoolValue(false)];
            && IsOn(SensorTypes[0].1, hwinfo) == BoolValue(true)
            && IsOn(SensorTypes[1].1, hwinfo) == BoolValue(false)
            && IsOn(SensorTypes[2].1, hwinfo) == BoolValue(false)
  {
  }
}
