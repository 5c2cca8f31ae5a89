/** Response shaping: the JSON values the handlers return, the recursive removal of
    `null` members and items (`remove_none_values`) and the flat row serializer that
    drops `null` columns and writes identifiers as text (`uuid_to_str`). */
module Serializer {
  import opened Base
  import opened Uuids

  /** A JSON value as the handlers build it; a dict keeps its members in order. */
  datatype Json =
    | JNull
    | JBool(b: bool)
    | JInt(i: int)
    | JStr(s: string)
    | JUuid(u: Uuid)
    | JList(items: seq<Json>)
    | JDict(fields: seq<Field>)

  datatype Field = Field(key: string, value: Json)

  predicate IsScalar(j: Json)
  {
    !j.JList? && !j.JDict?
  }

  /** No `null` appears as a list item or a dict value at any depth. */
  predicate NullFree(j: Json)
  {
    match j
    case JList(xs) => forall i :: 0 <= i < |xs| ==> xs[i] != JNull && NullFree(xs[i])
    case JDict(fs) => forall i :: 0 <= i < |fs| ==> fs[i].value != JNull && NullFree(fs[i].value)
    case _ => true
  }

  function Keys(fs: seq<Field>): (r: seq<string>)
    ensures |r| == |fs|
    ensures forall i :: 0 <= i < |fs| ==> r[i] == fs[i].key
  {
    if fs == [] then [] else [fs[0].key] + Keys(fs[1..])
  }

  lemma KeysAppend(a: seq<Field>, b: seq<Field>)
    ensures Keys(a + b) == Keys(a) + Keys(b)
  {
  }

  /** The keys whose value is not `null`, in their original order. */
  function KeptKeys(fs: seq<Field>): seq<string>
  {
    if fs == [] then []
    else (if fs[0].value == JNull then [] else [fs[0].key]) + KeptKeys(fs[1..])
  }

  function NonNullCount(xs: seq<Json>): nat
  {
    if xs == [] then 0 else (if xs[0] == JNull then 0 else 1) + NonNullCount(xs[1..])
  }

  /** `remove_none_values`: dicts lose their `null` members, lists their `null`
      items, recursively; any other value is returned as it is. */
  function RemoveNoneValues(j: Json): (r: Json)
    decreases j, 1
    ensures NullFree(r)
    ensures IsScalar(j) ==> r == j
    ensures j.JList? <==> r.JList?
    ensures j.JDict? ==> r.JDict? && Keys(r.fields) == KeptKeys(j.fields)
    ensures j.JList? ==> |r.items| == NonNullCount(j.items)
  {
    match j
    case JList(xs) => JList(CleanItems(xs))
    case JDict(fs) => JDict(CleanFields(fs))
    case _ => j
  }

  function CleanItems(xs: seq<Json>): (r: seq<Json>)
    decreases xs, 0
    ensures forall i :: 0 <= i < |r| ==> r[i] != JNull && NullFree(r[i])
    ensures |r| == NonNullCount(xs)
  {
    if xs == [] then []
    else
      var head := if xs[0] == JNull then [] else [RemoveNoneValues(xs[0])];
      head + CleanItems(xs[1..])
  }

  function CleanFields(fs: seq<Field>): (r: seq<Field>)
    decreases fs, 0
    ensures forall i :: 0 <= i < |r| ==> r[i].value != JNull && NullFree(r[i].value)
    ensures Keys(r) == KeptKeys(fs)
  {
    if fs == [] then []
    else
      var head := if fs[0].value == JNull then [] else [Field(fs[0].key, RemoveNoneValues(fs[0].value))];
      var rest := CleanFields(fs[1..]);
      KeysAppend(head, rest);
      head + rest
  }

  /** The items that are not `null`, in their original order. */
  function NonNullItems(xs: seq<Json>): (r: seq<Json>)
    ensures |r| == NonNullCount(xs)
  {
    if xs == [] then [] else (if xs[0] == JNull then [] else [xs[0]]) + NonNullItems(xs[1..])
  }

  /** The members whose value is not `null`, in their original order. */
  function NonNullFields(fs: seq<Field>): (r: seq<Field>)
    ensures Keys(r) == KeptKeys(fs)
  {
    if fs == [] then []
    else
      var head := if fs[0].value == JNull then [] else [fs[0]];
      KeysAppend(head, NonNullFields(fs[1..]));
      head + NonNullFields(fs[1..])
  }

  /** The cleaned list holds, in order, each non-`null` item cleaned in turn, and the
      cleaned dict each non-`null` member with its value cleaned. */
  lemma RemoveNoneValuesContents(j: Json)
    ensures j.JList? ==>
      var kept := NonNullItems(j.items);
      |RemoveNoneValues(j).items| == |kept| &&
      forall i :: 0 <= i < |kept| ==> RemoveNoneValues(j).items[i] == RemoveNoneValues(kept[i])
    ensures j.JDict? ==>
      var kept := NonNullFields(j.fields);
      |RemoveNoneValues(j).fields| == |kept| &&
      forall i :: 0 <= i < |kept| ==>
        RemoveNoneValues(j).fields[i] == Field(kept[i].key, RemoveNoneValues(kept[i].value))
  {
    match j
    case JList(xs) => CleanItemsContents(xs);
    case JDict(fs) => CleanFieldsContents(fs);
    case _ =>
  }

  lemma {:induction false} CleanItemsContents(xs: seq<Json>)
    ensures |CleanItems(xs)| == |NonNullItems(xs)|
    ensures forall i :: 0 <= i < |NonNullItems(xs)| ==> CleanItems(xs)[i] == RemoveNoneValues(NonNullItems(xs)[i])
  {
    if xs != [] {
      CleanItemsContents(xs[1..]);
    }
  }

  lemma {:induction false} CleanFieldsContents(fs: seq<Field>)
    ensures |CleanFields(fs)| == |NonNullFields(fs)|
    ensures forall i :: 0 <= i < |NonNullFields(fs)| ==>
              CleanFields(fs)[i] == Field(NonNullFields(fs)[i].key, RemoveNoneValues(NonNullFields(fs)[i].value))
  {
    if fs != [] {
      CleanFieldsContents(fs[1..]);
    }
  }

  /** A value with nothing to remove is returned unchanged. */
  lemma {:induction false} RemoveNoneValuesKeepsClean(j: Json)
    requires NullFree(j)
    ensures RemoveNoneValues(j) == j
    decreases j, 1
  {
    match j
    case JList(xs) => CleanItemsKeepsClean(xs);
    case JDict(fs) => CleanFieldsKeepsClean(fs);
    case _ =>
  }

  lemma {:induction false} CleanItemsKeepsClean(xs: seq<Json>)
    requires forall i :: 0 <= i < |xs| ==> xs[i] != JNull && NullFree(xs[i])
    ensures CleanItems(xs) == xs
    decreases xs, 0
  {
    if xs != [] {
      RemoveNoneValuesKeepsClean(xs[0]);
      CleanItemsKeepsClean(xs[1..]);
      assert xs == [xs[0]] + xs[1..];
    }
  }

  lemma {:induction false} CleanFieldsKeepsClean(fs: seq<Field>)
    requires forall i :: 0 <= i < |fs| ==> fs[i].value != JNull && NullFree(fs[i].value)
    ensures CleanFields(fs) == fs
    decreases fs, 0
  {
    if fs != [] {
      RemoveNoneValuesKeepsClean(fs[0].value);
      CleanFieldsKeepsClean(fs[1..]);
      assert fs == [fs[0]] + fs[1..];
    }
  }

  /** Removing `null`s twice is the same as removing them once. */
  lemma RemoveNoneValuesIdempotent(j: Json)
    ensures RemoveNoneValues(RemoveNoneValues(j)) == RemoveNoneValues(j)
  {
    RemoveNoneValuesKeepsClean(RemoveNoneValues(j));
  }

  /** `uuid_to_str`: an identifier becomes its canonical text, anything else is kept. */
  function UuidToStr(j: Json): (r: Json)
    ensures j.JUuid? ==> r.JStr? && ParseUuid(r.s) == Some(j.u)
    ensures !j.JUuid? ==> r == j
  {
    match j
    case JUuid(u) => ParseUuidToString(u); JStr(UuidToString(u))
    case _ => j
  }

  /** `{k: uuid_to_str(v) for k, v in row.items() if v is not None}`. */
  function SerializeRow(fs: seq<Field>): (r: seq<Field>)
    ensures Keys(r) == KeptKeys(fs)
    ensures forall i :: 0 <= i < |r| ==> r[i].value != JNull && !r[i].value.JUuid?
  {
    if fs == [] then []
    else
      var v := fs[0].value;
      var head := if v == JNull then [] else [Field(fs[0].key, UuidToStr(v))];
      var rest := SerializeRow(fs[1..]);
      assert forall i :: 0 <= i < |head| ==> head[i].value != JNull && !head[i].value.JUuid?;
      KeysAppend(head, rest);
      head + rest
  }

  /** Each kept member carries the value of the member of the same key in the row,
      with an identifier turned into text. */
  lemma {:induction false} SerializeRowValues(fs: seq<Field>, i: nat)
    requires i < |SerializeRow(fs)|
    ensures exists k :: 0 <= k < |fs| && fs[k].key == SerializeRow(fs)[i].key &&
                        SerializeRow(fs)[i].value == UuidToStr(fs[k].value)
  {
    var head := if fs[0].value == JNull then [] else [Field(fs[0].key, UuidToStr(fs[0].value))];
    if i < |head| {
      assert fs[0].key == SerializeRow(fs)[i].key;
    } else {
      SerializeRowValues(fs[1..], i - |head|);
      var k :| 0 <= k < |fs[1..]| && fs[1..][k].key == SerializeRow(fs[1..])[i - |head|].key &&
               SerializeRow(fs[1..])[i - |head|].value == UuidToStr(fs[1..][k].value);
      assert fs[k + 1] == fs[1..][k];
    }
  }
}
