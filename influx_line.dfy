/**
 * `InfluxLine` of src/line/mod.rs: a measurement, tags and fields kept in two
 * key/value storages, and an optional timestamp. The builder methods take the
 * line by value and hand it back changed; here they change it in place. The
 * field value type and the timestamp type are parameters.
 */
module InfluxLines {
  import opened Wrappers
  import opened Errors
  import opened Keys
  import opened Measurements
  import opened KeyValueStorage

  class InfluxLine<V, T> {
    var measurement: MeasurementName
    var tags: KeyValueStorage<KeyName>
    var fields: KeyValueStorage<V>
    var timestamp: Option<T>

    /** Tags and fields are two storages of their own, and there is always a field. */
    ghost predicate Valid()
      reads this, fields
    {
      tags as object != fields as object && fields.storage != []
    }

    /** `new`: exactly the one field given, no tags, no timestamp. */
    constructor (measurement: MeasurementName, field: KeyName, value: V)
      ensures Valid() && fresh(tags) && fresh(fields)
      ensures this.measurement == measurement
      ensures tags.storage == []
      ensures fields.storage == [KeyValuePair(field, value)]
      ensures timestamp == None
    {
      this.measurement := measurement;
      tags := new KeyValueStorage<KeyName>();
      fields := new KeyValueStorage<V>.FromIter([(field, value)]);
      timestamp := None;
    }

    /** `measurement()`. */
    function Measurement(): (r: MeasurementName)
      reads this
      ensures r == measurement
    {
      measurement
    }

    /** `tag(name)`: the value of the tag named `name`, if any. */
    function Tag(name: string): (r: Option<KeyName>)
      reads this, tags
      ensures r == LookupIn(tags.storage, name)
    {
      tags.Get(name)
    }

    /** `field(name)`: the value of the field named `name`, if any. */
    function Field(name: string): (r: Option<V>)
      reads this, fields
      ensures r == LookupIn(fields.storage, name)
    {
      fields.Get(name)
    }

    /** `timestamp()`. */
    function Timestamp(): (r: Option<T>)
      reads this
      ensures r == timestamp
    {
      timestamp
    }

    /** `with_timestamp`: sets the timestamp and nothing else. */
    method WithTimestamp(t: T)
      requires Valid()
      modifies this
      ensures Valid()
      ensures timestamp == Some(t)
      ensures measurement == old(measurement) && tags == old(tags) && fields == old(fields)
      ensures unchanged(tags) && unchanged(fields)
    {
      timestamp := Some(t);
    }

    /** `with_tag`: puts the tag and changes nothing else. */
    method WithTag(tag: KeyName, value: KeyName)
      requires Valid()
      modifies tags
      ensures Valid()
      ensures tags.storage == Upsert(old(tags.storage), KeyValuePair(tag, value))
      ensures unchanged(this) && unchanged(fields)
      ensures Tag(tag.name) == Some(value)
      ensures forall name :: name != tag.name ==> Tag(name) == old(Tag(name))
    {
      var _ := tags.Put(tag, value);
      GetAfterPut(old(tags.storage), KeyValuePair(tag, value));
      forall name | name != tag.name
        ensures LookupIn(tags.storage, name) == LookupIn(old(tags.storage), name)
      {
        GetOtherAfterPut(old(tags.storage), KeyValuePair(tag, value), name);
      }
    }

    /** `with_field`: puts the field and changes nothing else; there is still a field. */
    method WithField(field: KeyName, value: V)
      requires Valid()
      modifies fields
      ensures Valid()
      ensures fields.storage == Upsert(old(fields.storage), KeyValuePair(field, value))
      ensures unchanged(this) && unchanged(tags)
      ensures Field(field.name) == Some(value)
      ensures forall name :: name != field.name ==> Field(name) == old(Field(name))
    {
      var _ := fields.Put(field, value);
      UpsertKeepsOrder(old(fields.storage), KeyValuePair(field, value));
      GetAfterPut(old(fields.storage), KeyValuePair(field, value));
      forall name | name != field.name
        ensures LookupIn(fields.storage, name) == LookupIn(old(fields.storage), name)
      {
        GetOtherAfterPut(old(fields.storage), KeyValuePair(field, value), name);
      }
    }
  }

  /**
   * `try_new`: the measurement name is checked first; when it meets the naming
   * restriction the line is what `new` gives.
   */
  method TryNew<V, T>(measurement: string, field: KeyName, value: V) returns (r: Result<InfluxLine<V, T>, InfluxLineError>)
    ensures r.Err? <==> TryFrom(measurement).Err?
    ensures r.Err? ==> r.error == NameRestriction
    ensures r.Ok? ==> fresh(r.value) && r.value.Valid()
    ensures r.Ok? ==> r.value.measurement == TryFrom(measurement).value && r.value.tags.storage == []
                      && r.value.fields.storage == [KeyValuePair(field, value)] && r.value.timestamp == None
  {
    var name := TryFrom(measurement);
    if name.Err? {
      return Err(name.error);
    }
    var line := new InfluxLine<V, T>(name.value, field, value);
    return Ok(line);
  }
}

/**
 * The documented builder examples of src/line/mod.rs, on the storages the
 * builder methods leave behind, with the names and values left generic.
 */
module InfluxLineExamples {
  import opened Wrappers
  import opened Keys
  import opened KeyValueStorage

  /**
   * Tags club=art, location=siberia, then club=sports: the later club wins,
   * the club keeps its first position, and an unknown tag name is absent.
   */
  lemma TagOverride(club: KeyName, location: KeyName, art: KeyName, siberia: KeyName, sports: KeyName, other: string)
    requires club.name != location.name && other != club.name && other != location.name
    ensures var s := Upsert(Upsert(Upsert([], KeyValuePair(club, art)), KeyValuePair(location, siberia)),
                            KeyValuePair(club, sports));
            && LookupIn(s, location.name) == Some(siberia)
            && LookupIn(s, club.name) == Some(sports)
            && LookupIn(s, other) == None
            && s == [KeyValuePair(club, sports), KeyValuePair(location, siberia)]
  {
    var s1 := Upsert([], KeyValuePair(club, art));
    UpsertNew([], KeyValuePair(club, art));
    assert s1 == [KeyValuePair(club, art)];
    assert FindIndex(s1, location) == None;
    UpsertNew(s1, KeyValuePair(location, siberia));
    var s2 := s1 + [KeyValuePair(location, siberia)];
    FindIndexIs(s2, club, 0);
    var s := Upsert(s2, KeyValuePair(club, sports));
    assert s == [KeyValuePair(club, sports), KeyValuePair(location, siberia)];
    LookupIs(s, location.name, 1);
    LookupIs(s, club.name, 0);
  }

  /**
   * A line made with field age=15 and then given height, age=55, is_epic and
   * name keeps age first, with its new value, and appends the others in order.
   */
  lemma FieldOverrideStorage<V>(age: KeyName, height: KeyName, isEpic: KeyName, name: KeyName,
                                v15: V, v182: V, v55: V, vTrue: V, vArmstrong: V)
    requires age != height && age != isEpic && age != name
    requires height != isEpic && height != name && isEpic != name
    ensures Upsert(Upsert(Upsert(Upsert([KeyValuePair(age, v15)], KeyValuePair(height, v182)),
                   KeyValuePair(age, v55)), KeyValuePair(isEpic, vTrue)), KeyValuePair(name, vArmstrong))
         == [KeyValuePair(age, v55), KeyValuePair(height, v182), KeyValuePair(isEpic, vTrue), KeyValuePair(name, vArmstrong)]
  {
    var s0 := [KeyValuePair(age, v15)];
    var p1, p2, p3, p4 := KeyValuePair(height, v182), KeyValuePair(age, v55), KeyValuePair(isEpic, vTrue), KeyValuePair(name, vArmstrong);
    assert FindIndex(s0, height) == None;
    UpsertNew(s0, p1);
    var s1 := s0 + [p1];
    FindIndexIs(s1, age, 0);
    var s2 := Upsert(s1, p2);
    assert s2 == [p2, p1];
    assert FindIndex(s2, isEpic) == None;
    UpsertNew(s2, p3);
    var s3 := s2 + [p3];
    assert FindIndex(s3, name) == None;
    UpsertNew(s3, p4);
    assert s3 + [p4] == [p2, p1, p3, p4];
  }

  /** Four fields with distinct names: each reads back its value. */
  lemma FourFieldsRead<V>(s: seq<KeyValuePair<V>>, a: KeyName, b: KeyName, c: KeyName, d: KeyName,
                          va: V, vb: V, vc: V, vd: V)
    requires s == [KeyValuePair(a, va), KeyValuePair(b, vb), KeyValuePair(c, vc), KeyValuePair(d, vd)]
    requires a.name != b.name && a.name != c.name && a.name != d.name
    requires b.name != c.name && b.name != d.name && c.name != d.name
    ensures LookupIn(s, a.name) == Some(va) && LookupIn(s, b.name) == Some(vb)
    ensures LookupIn(s, c.name) == Some(vc) && LookupIn(s, d.name) == Some(vd)
  {
    ReadAt(s, 0);
    ReadAt(s, 1);
    ReadAt(s, 2);
    ReadAt(s, 3);
  }

  /** A name none of four fields has is absent. */
  lemma FourFieldsAbsent<V>(s: seq<KeyValuePair<V>>, a: KeyName, b: KeyName, c: KeyName, d: KeyName,
                            va: V, vb: V, vc: V, vd: V, other: string)
    requires s == [KeyValuePair(a, va), KeyValuePair(b, vb), KeyValuePair(c, vc), KeyValuePair(d, vd)]
    requires other != a.name && other != b.name && other != c.name && other != d.name
    ensures LookupIn(s, other) == None
  {
    assert forall j :: 0 <= j < |s| ==> s[j].key.name != other;
  }

  /** The entry at `i` is found when no entry before it has its name. */
  lemma ReadAt<V>(s: seq<KeyValuePair<V>>, i: nat)
    requires i < |s| && forall j :: 0 <= j < i ==> s[j].key.name != s[i].key.name
    ensures LookupIn(s, s[i].key.name) == Some(s[i].value)
  {
    LookupIs(s, s[i].key.name, i);
  }

  /** In that line every field reads back its last value and an unknown name is absent. */
  lemma FieldOverride<V>(age: KeyName, height: KeyName, isEpic: KeyName, name: KeyName,
                         v15: V, v182: V, v55: V, vTrue: V, vArmstrong: V, other: string)
    requires age.name != height.name && age.name != isEpic.name && age.name != name.name
    requires height.name != isEpic.name && height.name != name.name && isEpic.name != name.name
    requires other != age.name && other != height.name && other != isEpic.name && other != name.name
    ensures var s := Upsert(Upsert(Upsert(Upsert([KeyValuePair(age, v15)], KeyValuePair(height, v182)),
                            KeyValuePair(age, v55)), KeyValuePair(isEpic, vTrue)), KeyValuePair(name, vArmstrong));
            && LookupIn(s, height.name) == Some(v182)
            && LookupIn(s, age.name) == Some(v55)
            && LookupIn(s, isEpic.name) == Some(vTrue)
            && LookupIn(s, name.name) == Some(vArmstrong)
            && LookupIn(s, other) == None
  {
    FieldOverrideStorage(age, height, isEpic, name, v15, v182, v55, vTrue, vArmstrong);
    var s := Upsert(Upsert(Upsert(Upsert([KeyValuePair(age, v15)], KeyValuePair(height, v182)),
                    KeyValuePair(age, v55)), KeyValuePair(isEpic, vTrue)), KeyValuePair(name, vArmstrong));
    FourFieldsRead(s, age, height, isEpic, name, v55, v182, vTrue, vArmstrong);
    FourFieldsAbsent(s, age, height, isEpic, name, v55, v182, vTrue, vArmstrong, other);
  }
}
