/** What `json_decode(..., true)` returns: PHP scalars and arrays. */
module PhpJson {
  import opened Utf8
  import opened Texts
  import opened DecimalText

  /** An array key: an object's name that looks like an integer has become one. */
  datatype Key = Index(n: int) | Name(text: Text)

  datatype Json =
    | Null
    | Bool(flag: bool)
    | Int(n: int)
    | Float
    | Str(text: Text)
    | Arr(entries: seq<Entry>)

  datatype Entry = Entry(key: Key, value: Json)

  const MINUS: Byte := 0x2D

  /** `(string) $key`. */
  function KeyText(key: Key): (r: Text)
    ensures key.Index? ==> r != [] && (IsDigit(r[0]) || r[0] == MINUS)
  {
    match key
    case Name(text) => text
    case Index(n) => if n >= 0 then Pad(n, 1) else [MINUS] + Pad(-n, 1)
  }

  /** The keys of a PHP array are distinct. */
  predicate DistinctKeys(entries: seq<Entry>) {
    forall i, j :: 0 <= i < j < |entries| ==> entries[i].key != entries[j].key
  }

  /** A value PHP can hold: every array in it has distinct keys. */
  predicate IsPhp(j: Json) {
    j.Arr? ==> DistinctKeys(j.entries) && forall i :: 0 <= i < |j.entries| ==> IsPhp(j.entries[i].value)
  }

  /** `array_is_list`. */
  predicate IsList(entries: seq<Entry>) {
    forall i :: 0 <= i < |entries| ==> entries[i].key == Index(i)
  }

  /** A decoded JSON object: an array that is no list, or the empty array. */
  predicate IsObject(j: Json) {
    j.Arr? && (!IsList(j.entries) || j.entries == [])
  }

  /** `$entries[$name] ?? null`. */
  function Get(entries: seq<Entry>, name: Text): (r: Json)
    ensures r != Null ==> exists i :: 0 <= i < |entries| && entries[i] == Entry(Name(name), r)
  {
    if entries == [] then Null
    else if entries[0].key == Name(name) then entries[0].value
    else
      var r := Get(entries[1..], name);
      assert r != Null ==> exists i :: 0 <= i < |entries| && entries[i] == Entry(Name(name), r) by {
        if r != Null {
          var i :| 0 <= i < |entries[1..]| && entries[1..][i] == Entry(Name(name), r);
          assert entries[i + 1] == Entry(Name(name), r);
        }
      }
      r
  }

  lemma GetIsPhp(j: Json, name: Text)
    requires j.Arr? && IsPhp(j)
    ensures IsPhp(Get(j.entries, name))
  {
  }

  /** No key but these, that is `array_diff` of the keys and these is empty. */
  predicate OnlyNames(entries: seq<Entry>, names: set<Text>) {
    forall i :: 0 <= i < |entries| ==> KeyText(entries[i].key) in names
  }

  predicate OptionalString(j: Json) {
    j.Null? || j.Str?
  }
}
