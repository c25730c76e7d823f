/** nerds_utils.nerds.to_nerds: the per-host inventory envelope
    {'host': {'version': 1, 'name': name, <producer>: data}}. */
module Nerds {
  import opened Py
  import opened Json

  /** A producer name is truthy when it is a non-empty string. */
  predicate ProducerSet(producer: Option<string>) {
    producer.Some? && producer.value != ""
  }

  /** to_nerds(name, producer_name, data). */
  function ToNerds(name: Value, producer: Option<string>, data: Value): (r: Value)
    ensures r.Obj? && Keys(r.fields) == ["host"]
    ensures var host := r.fields[0].1;
      && host.Obj?
      && (ProducerSet(producer) ==> Get(host.fields, producer.value) == Some(data))
      && (!ProducerSet(producer) ==> Keys(host.fields) == ["version", "name"])
      && (forall k :: k in Keys(host.fields) ==>
            k == "version" || k == "name" || (ProducerSet(producer) && k == producer.value))
      && (producer != Some("version") ==> Get(host.fields, "version") == Some(Int(1)))
      && (producer != Some("name") ==> Get(host.fields, "name") == Some(name))
  {
    var base := [("version", Int(1)), ("name", name)];
    PairSpec("version", Int(1), "name", name);
    assert forall k :: k in Keys(base) ==> k == "version" || k == "name";
    var host :=
      if ProducerSet(producer) then
        PutSpec(base, producer.value, data);
        Put(base, producer.value, data)
      else base;
    Obj([("host", Obj(host))])
  }

  /** The envelope's host entry has distinct keys. */
  lemma ToNerdsDistinct(name: Value, producer: Option<string>, data: Value)
    ensures DistinctKeys(ToNerds(name, producer, data).fields[0].1.fields)
  {
    var base := [("version", Int(1)), ("name", name)];
    if ProducerSet(producer) {
      PutDistinct(base, producer.value, data);
    }
  }
}
