/** Device-information extraction: the fixed (label, lockdown key) table mapped
    over the lockdown value dictionary of one device. */
module DeviceInfo {
  import opened Wrappers
  import opened PropertyList
  import opened Messages

  /** One row of the extraction table: the label shown and the lockdown key read. */
  datatype Field = Field(name: string, key: string)

  /** The table, in display order. */
  const Fields: seq<Field> := [
    Field("Device Name", "DeviceName"),
    Field("Model", "ProductType"),
    Field("iOS Version", "ProductVersion"),
    Field("Build Number", "BuildVersion"),
    Field("UDID", "UniqueDeviceID")
  ]

  /** The rows that `fields` yield from `values`, one per field whose key holds a
      string, in table order. */
  function InfoOf(values: Value, fields: seq<Field>): seq<InfoEntry>
  {
    if fields == [] then []
    else
      var rest := InfoOf(values, fields[..|fields| - 1]);
      var f := fields[|fields| - 1];
      match StringAt(values, f.key)
      case Some(s) => rest + [InfoEntry(f.name, s)]
      case None => rest
  }

  /** The position of the first table row labelled `name`, or |fields| if none is. */
  function NameIndex(fields: seq<Field>, name: string): (i: nat)
    ensures i <= |fields|
    ensures i < |fields| ==> fields[i].name == name
    ensures forall j :: 0 <= j < i ==> fields[j].name != name
  {
    if fields == [] then 0
    else if fields[0].name == name then 0
    else 1 + NameIndex(fields[1..], name)
  }

  ghost predicate DistinctNames(fields: seq<Field>)
  {
    forall i, j :: 0 <= i < j < |fields| ==> fields[i].name != fields[j].name
  }

  lemma FieldNamesDistinct()
    ensures DistinctNames(Fields)
  {
    forall i, j | 0 <= i < j < |Fields|
      ensures Fields[i].name != Fields[j].name
    {
      assert Fields[i].name[0] != Fields[j].name[0] || |Fields[i].name| != |Fields[j].name|;
    }
  }

  /** For each row of InfoOf(values, fields), the table position it came from:
      positions increase strictly, each row carries that field's label and the
      string stored under its key, and a position appears exactly when its key
      holds a string. */
  lemma {:induction false} InfoOfOrigins(values: Value, fields: seq<Field>) returns (origin: seq<nat>)
    ensures |origin| == |InfoOf(values, fields)| <= |fields|
    ensures forall k :: 0 <= k < |origin| ==>
              origin[k] < |fields| &&
              InfoOf(values, fields)[k].name == fields[origin[k]].name &&
              StringAt(values, fields[origin[k]].key) == Some(InfoOf(values, fields)[k].value)
    ensures forall k, k' :: 0 <= k < k' < |origin| ==> origin[k] < origin[k']
    ensures forall j :: 0 <= j < |fields| ==> (StringAt(values, fields[j].key).Some? <==> j in origin)
  {
    if fields == [] {
      origin := [];
    } else {
      var n := |fields| - 1;
      var prefix := fields[..n];
      var o := InfoOfOrigins(values, prefix);
      assert forall j :: 0 <= j < n ==> prefix[j] == fields[j];
      if StringAt(values, fields[n].key).Some? {
        origin := o + [n];
      } else {
        origin := o;
      }
    }
  }

  /** The rows follow the table: labels come from it in its order, each at most
      once, and a label appears with a value exactly when its key holds that string. */
  lemma InfoFollowsTable(values: Value)
    ensures var info := InfoOf(values, Fields);
      |info| <= |Fields| &&
      (forall k :: 0 <= k < |info| ==> NameIndex(Fields, info[k].name) < |Fields|) &&
      (forall k, k' :: 0 <= k < k' < |info| ==>
         NameIndex(Fields, info[k].name) < NameIndex(Fields, info[k'].name))
  {
    var origin := InfoOfOrigins(values, Fields);
    FieldNamesDistinct();
    assert forall k :: 0 <= k < |origin| ==> NameIndex(Fields, InfoOf(values, Fields)[k].name) == origin[k];
  }

  /** A table label is shown with value `s` exactly when its key holds the string `s`. */
  lemma InfoMatchesValues(values: Value)
    ensures forall j, s :: 0 <= j < |Fields| ==>
              (InfoEntry(Fields[j].name, s) in InfoOf(values, Fields) <==> StringAt(values, Fields[j].key) == Some(s))
  {
    var info := InfoOf(values, Fields);
    var origin := InfoOfOrigins(values, Fields);
    FieldNamesDistinct();
    forall j, s | 0 <= j < |Fields|
      ensures InfoEntry(Fields[j].name, s) in info <==> StringAt(values, Fields[j].key) == Some(s)
    {
      if InfoEntry(Fields[j].name, s) in info {
        var k :| 0 <= k < |info| && info[k] == InfoEntry(Fields[j].name, s);
        assert Fields[origin[k]].name == Fields[j].name;
      }
      if StringAt(values, Fields[j].key) == Some(s) {
        var k :| 0 <= k < |origin| && origin[k] == j;
        assert info[k] == InfoEntry(Fields[j].name, s);
      }
    }
  }

  /** The vector of rows built by pushing one entry per string-valued table key. */
  method ExtractDeviceInfo(values: Value) returns (info: seq<InfoEntry>)
    ensures info == InfoOf(values, Fields)
    ensures |info| <= |Fields|
    ensures forall k :: 0 <= k < |info| ==> NameIndex(Fields, info[k].name) < |Fields|
    ensures forall k, k' :: 0 <= k < k' < |info| ==>
              NameIndex(Fields, info[k].name) < NameIndex(Fields, info[k'].name)
    ensures forall j, s :: 0 <= j < |Fields| ==>
              (InfoEntry(Fields[j].name, s) in info <==> StringAt(values, Fields[j].key) == Some(s))
  {
    info := [];
    for i := 0 to |Fields|
      invariant info == InfoOf(values, Fields[..i])
    {
      assert Fields[..i + 1][..i] == Fields[..i];
      match StringAt(values, Fields[i].key) {
        case Some(s) => info := info + [InfoEntry(Fields[i].name, s)];
        case None =>
      }
    }
    assert Fields[..|Fields|] == Fields;
    InfoFollowsTable(values);
    InfoMatchesValues(values);
  }
}
