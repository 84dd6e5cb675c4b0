/** An abstract model of the document-store records the snapshot reads: a document is an
    insertion-ordered list of named fields, as a MongoDB `DBObject` (a `BasicDBObject` is a
    `LinkedHashMap`) presents it. */
module Documents {
  import opened Sequences

  /** A field value. `Null` is a Java `null`, and also what `get` gives for an absent field. */
  datatype Val =
    | Null
    | Bool(b: bool)
    | Int(i: int)
    | Str(s: string)
    | Obj(doc: Doc)
    | Arr(elems: seq<Val>)

  /** A record: its fields in key-set order. */
  datatype Doc = Doc(fields: seq<(string, Val)>)

  /** The record's key set, in iteration order. */
  function Names(d: Doc): seq<string> {
    seq(|d.fields|, i requires 0 <= i < |d.fields| => d.fields[i].0)
  }

  /** A record whose field names are pairwise distinct, as every `DBObject` map is. */
  predicate IsDBObject(d: Doc) {
    Distinct(Names(d))
  }

  /** `DBObject.get`: the value stored under `name`, or `Null` when there is none. */
  function Get(d: Doc, name: string): Val {
    var i := IndexOf(Names(d), name);
    if i < |d.fields| then d.fields[i].1 else Null
  }

  /** Reading a field the record does not have yields `Null`. */
  lemma GetAbsent(d: Doc, name: string)
    requires name !in Names(d)
    ensures Get(d, name) == Null
  {
  }

  /** Reading a field of a `DBObject` yields the value stored under that name. */
  lemma GetPresent(d: Doc, name: string, i: nat)
    requires IsDBObject(d) && i < |d.fields| && d.fields[i].0 == name
    ensures Get(d, name) == d.fields[i].1
  {
    assert Names(d)[i] == name;
  }
}
