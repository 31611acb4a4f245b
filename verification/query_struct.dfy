/**
 * What `query.Values` from go-querystring does with a struct of string
 * fields: each field becomes one pair under the name in its `url` tag, in
 * declaration order, except that a field tagged `omitempty` is skipped when
 * its value is the empty string.
 */
module QueryStruct {
  import opened Wrappers
  import opened ByteStrings
  import opened UrlValues

  /** One string field with its parsed `url:"name[,omitempty]"` tag. */
  datatype Field = Field(tag: Bytes, omitEmpty: bool, value: Bytes)

  predicate Emitted(f: Field)
  {
    !(f.omitEmpty && f.value == [])
  }

  function FieldPairs(f: Field): seq<Pair>
  {
    if Emitted(f) then [Pair(f.tag, f.value)] else []
  }

  /** `query.Values` for a struct whose fields are all strings. */
  function Reflect(fields: seq<Field>): seq<Pair>
  {
    if fields == [] then [] else FieldPairs(fields[0]) + Reflect(fields[1..])
  }

  /** Fields that are all skipped produce no pairs at all. */
  lemma {:induction false} ReflectAllSkipped(fields: seq<Field>)
    requires forall i :: 0 <= i < |fields| ==> !Emitted(fields[i])
    ensures Reflect(fields) == []
  {
    if fields != [] {
      ReflectAllSkipped(fields[1..]);
    }
  }

  predicate DistinctTags(fields: seq<Field>)
  {
    forall i, j :: 0 <= i < j < |fields| ==> fields[i].tag != fields[j].tag
  }

  lemma {:induction false} ReflectFilterAbsent(fields: seq<Field>, k: Bytes)
    requires forall i :: 0 <= i < |fields| ==> fields[i].tag != k
    ensures KeyFilter(Reflect(fields), k) == []
  {
    if fields != [] {
      ReflectFilterAbsent(fields[1..], k);
      KeyFilterConcat(FieldPairs(fields[0]), Reflect(fields[1..]), k);
    }
  }

  lemma {:induction false} ReflectFilterAt(fields: seq<Field>, i: nat)
    requires i < |fields| && DistinctTags(fields)
    ensures KeyFilter(Reflect(fields), fields[i].tag) == FieldPairs(fields[i])
  {
    var k := fields[i].tag;
    KeyFilterConcat(FieldPairs(fields[0]), Reflect(fields[1..]), k);
    if i == 0 {
      ReflectFilterAbsent(fields[1..], k);
    } else {
      ReflectFilterAt(fields[1..], i - 1);
    }
  }

  /** A field's tag looks up the field's value exactly when the field is emitted. */
  lemma LookupReflect(fields: seq<Field>, i: nat)
    requires i < |fields| && DistinctTags(fields)
    ensures Lookup(Reflect(fields), fields[i].tag) ==
            if Emitted(fields[i]) then Some(fields[i].value) else None
  {
    ReflectFilterAt(fields, i);
  }

  /** A name that tags no field is absent from the values. */
  lemma LookupReflectAbsent(fields: seq<Field>, k: Bytes)
    requires forall i :: 0 <= i < |fields| ==> fields[i].tag != k
    ensures Lookup(Reflect(fields), k) == None
  {
    ReflectFilterAbsent(fields, k);
  }

  /** With distinct tags, no key is stored twice. */
  lemma ReflectKeysUnique(fields: seq<Field>)
    requires DistinctTags(fields)
    ensures forall k :: |KeyFilter(Reflect(fields), k)| <= 1
  {
    forall k
      ensures |KeyFilter(Reflect(fields), k)| <= 1
    {
      if i :| 0 <= i < |fields| && fields[i].tag == k {
        ReflectFilterAt(fields, i);
      } else {
        ReflectFilterAbsent(fields, k);
      }
    }
  }
}
