/** The `key=value,key=value` lists of `utils/aptos.go`. */
module KeyValues {
  import opened Results
  import opened Text

  datatype KeyValue = KeyValue(key: string, value: string)

  // ---- printing ----

  function Item(kv: KeyValue): string {
    kv.key + "=" + kv.value
  }

  /** Every item followed by a comma. */
  function Printed(kvs: seq<KeyValue>): string {
    if kvs == [] then "" else Printed(kvs[..|kvs| - 1]) + (Item(kvs[|kvs| - 1]) + ",")
  }

  /** The items; all commas at the end, not only the last item's own, are cut off. */
  method KeyValuesToString(keyValues: seq<KeyValue>) returns (r: string)
    ensures r == TrimRight(Printed(keyValues), ',')
  {
    var result := "";
    for i := 0 to |keyValues|
      invariant result == Printed(keyValues[..i])
    {
      assert keyValues[..i + 1][..i] == keyValues[..i];
      result := result + (keyValues[i].key + "=" + keyValues[i].value + ",");
    }
    assert keyValues[..|keyValues|] == keyValues;
    r := TrimRight(result, ',');
  }

  // ---- parsing ----

  function ParseItem(item: string): Option<KeyValue> {
    var parts := Split(item, '=');
    if |parts| != 2 then None else Some(KeyValue(TrimSpace(parts[0]), TrimSpace(parts[1])))
  }

  /** All items, or nothing if one of them is malformed. */
  function ParseItems(items: seq<string>): Option<seq<KeyValue>> {
    if items == [] then Some([])
    else
      match (ParseItems(items[..|items| - 1]), ParseItem(items[|items| - 1]))
      case (Some(kvs), Some(kv)) => Some(kvs + [kv])
      case _ => None
  }

  function Parsed(s: string): Option<seq<KeyValue>> {
    ParseItems(Split(s, ','))
  }

  /** An item is well formed exactly when it has one '='; its key and its value are what surrounds it, trimmed. */
  lemma ParseItemIff(item: string)
    ensures ParseItem(item).Some? <==> exists a: string, b: string :: IsPair(item, a, b)
    ensures forall a: string, b: string :: IsPair(item, a, b) ==>
              ParseItem(item) == Some(KeyValue(TrimSpace(a), TrimSpace(b)))
  {
    hide TrimSpace, Split, Join;
    forall a: string, b: string | IsPair(item, a, b) ensures Split(item, '=') == [a, b] {
      SplitFirst(a, '=', b);
      SplitWhole(b, '=');
    }
    if ParseItem(item).Some? {
      var parts := Split(item, '=');
      SplitPartsHaveNoSeparator(item, '=');
      JoinSplit(item, '=');
      JoinTwo(parts);
      assert IsPair(item, parts[0], parts[1]);
    }
  }

  predicate IsPair(item: string, a: string, b: string) {
    '=' !in a && '=' !in b && item == a + "=" + b
  }

  lemma JoinTwo(parts: seq<string>)
    requires |parts| == 2
    ensures Join(parts, '=') == parts[0] + "=" + parts[1]
  {
    assert Join(parts[1..], '=') == parts[1];
  }

  /** A list is parsed item by item. */
  lemma {:induction false} ParseItemsIff(items: seq<string>)
    ensures ParseItems(items).Some? <==> forall i :: 0 <= i < |items| ==> ParseItem(items[i]).Some?
    ensures ParseItems(items).Some? ==>
              && |ParseItems(items).value| == |items|
              && forall i :: 0 <= i < |items| ==> Some(ParseItems(items).value[i]) == ParseItem(items[i])
  {
    hide ParseItem;
    if items != [] {
      ParseItemsIff(items[..|items| - 1]);
    }
  }

  lemma {:induction false} MalformedItem(items: seq<string>, i: nat)
    requires i < |items| && ParseItem(items[i]).None?
    ensures ParseItems(items).None?
  {
    if i < |items| - 1 {
      MalformedItem(items[..|items| - 1], i);
    }
  }

  method KeyValuesFromString(keyValues: string) returns (r: Option<seq<KeyValue>>)
    ensures r == Parsed(keyValues)
  {
    hide Split, TrimSpace;
    var items := Split(keyValues, ',');
    var result: seq<KeyValue> := [];
    for i := 0 to |items|
      invariant ParseItems(items[..i]) == Some(result)
    {
      assert items[..i + 1][..i] == items[..i];
      var parts := Split(items[i], '=');
      if |parts| != 2 {
        MalformedItem(items, i);
        return None;
      }
      result := result + [KeyValue(TrimSpace(parts[0]), TrimSpace(parts[1]))];
    }
    assert items[..|items|] == items;
    return Some(result);
  }

  /** The value a key has last in a list. */
  function LastWins(kvs: seq<KeyValue>): map<string, string> {
    if kvs == [] then map[] else LastWins(kvs[..|kvs| - 1])[kvs[|kvs| - 1].key := kvs[|kvs| - 1].value]
  }

  /** One more well-formed item. */
  lemma NextItem(items: seq<string>, i: nat)
    requires i < |items| && ParseItems(items[..i]).Some? && ParseItem(items[i]).Some?
    ensures var kvs, kv := ParseItems(items[..i]).value, ParseItem(items[i]).value;
            && ParseItems(items[..i + 1]) == Some(kvs + [kv])
            && LastWins(kvs + [kv]) == LastWins(kvs)[kv.key := kv.value]
  {
    hide ParseItem;
    assert items[..i + 1][..i] == items[..i];
    var kvs := ParseItems(items[..i]).value;
    assert (kvs + [ParseItem(items[i]).value])[..|kvs|] == kvs;
  }

  /** Accepts the same texts as `KeyValuesFromString`, and keeps the last value of every key. */
  method GetKeyValuesFromString(keyValueString: string) returns (r: Option<map<string, string>>)
    ensures r.Some? <==> Parsed(keyValueString).Some?
    ensures r.Some? ==> r.value == LastWins(Parsed(keyValueString).value)
  {
    hide Split, TrimSpace, ParseItems, LastWins;
    NoItems();
    var items := Split(keyValueString, ',');
    var result: map<string, string> := map[];
    for i := 0 to |items|
      invariant ParseItems(items[..i]).Some? && result == LastWins(ParseItems(items[..i]).value)
    {
      var parts := Split(items[i], '=');
      if |parts| != 2 {
        MalformedItem(items, i);
        return None;
      }
      NextItem(items, i);
      result := result[TrimSpace(parts[0]) := TrimSpace(parts[1])];
    }
    assert items[..|items|] == items;
    return Some(result);
  }

  lemma NoItems()
    ensures ParseItems([]) == Some([]) && LastWins([]) == map[]
  {
  }

  /** Looking a key up gives the value of its last occurrence. */
  lemma {:induction false} LastWinsLooksUpLast(kvs: seq<KeyValue>, i: nat)
    requires i < |kvs| && forall j :: i < j < |kvs| ==> kvs[j].key != kvs[i].key
    ensures kvs[i].key in LastWins(kvs) && LastWins(kvs)[kvs[i].key] == kvs[i].value
  {
    if i < |kvs| - 1 {
      LastWinsLooksUpLast(kvs[..|kvs| - 1], i);
    }
  }

  /** No key is lost or made up. */
  lemma {:induction false} LastWinsHasKeys(kvs: seq<KeyValue>, k: string)
    ensures k in LastWins(kvs) <==> exists i :: 0 <= i < |kvs| && kvs[i].key == k
  {
    if kvs != [] {
      var past, last := kvs[..|kvs| - 1], |kvs| - 1;
      LastWinsHasKeys(past, k);
      assert forall i :: 0 <= i < last ==> past[i] == kvs[i];
      assert k in LastWins(kvs) <==> k in LastWins(past) || kvs[last].key == k;
    }
  }

  // ---- the round trip ----

  predicate IsClean(s: string) {
    ',' !in s && '=' !in s && TrimSpace(s) == s
  }

  predicate AllClean(kvs: seq<KeyValue>) {
    forall i :: 0 <= i < |kvs| ==> IsClean(kvs[i].key) && IsClean(kvs[i].value)
  }

  lemma CleanItem(kv: KeyValue)
    requires IsClean(kv.key) && IsClean(kv.value)
    ensures ParseItem(Item(kv)) == Some(kv) && ',' !in Item(kv) && Item(kv) != "" && Item(kv)[|Item(kv)| - 1] != ','
  {
    hide TrimSpace;
    SplitFirst(kv.key, '=', kv.value);
    SplitWhole(kv.value, '=');
    var s := Item(kv);
    assert s[|s| - 1] in s;
  }

  /** Parsing a text that starts with whole items. */
  lemma {:induction false} PrintedItems(kvs: seq<KeyValue>, rest: string)
    requires AllClean(kvs)
    ensures Split(Printed(kvs) + rest, ',') == Items(kvs) + Split(rest, ',')
  {
    hide Split, IsClean;
    if kvs == [] {
      assert Printed(kvs) + rest == rest;
    } else {
      var past, kv := kvs[..|kvs| - 1], kvs[|kvs| - 1];
      assert IsClean(kv.key) && IsClean(kv.value);
      CleanItem(kv);
      assert Printed(kvs) + rest == Printed(past) + (Item(kv) + [','] + rest);
      PrintedItems(past, Item(kv) + [','] + rest);
      SplitFirst(Item(kv), ',', rest);
      assert Items(past) + ([Item(kv)] + Split(rest, ',')) == Items(kvs) + Split(rest, ',');
    }
  }

  function Items(kvs: seq<KeyValue>): seq<string> {
    if kvs == [] then [] else Items(kvs[..|kvs| - 1]) + [Item(kvs[|kvs| - 1])]
  }

  lemma {:induction false} ItemsParse(kvs: seq<KeyValue>)
    requires AllClean(kvs)
    ensures ParseItems(Items(kvs)) == Some(kvs)
  {
    hide ParseItem, Item, IsClean;
    if kvs != [] {
      var past, kv := kvs[..|kvs| - 1], kvs[|kvs| - 1];
      ItemsParse(past);
      assert IsClean(kv.key) && IsClean(kv.value);
      CleanItem(kv);
      assert Items(kvs)[..|Items(kvs)| - 1] == Items(past);
      assert past + [kv] == kvs;
    }
  }

  lemma CleanRoundTrip(kvs: seq<KeyValue>)
    requires kvs != [] && AllClean(kvs)
    ensures Parsed(TrimRight(Printed(kvs), ',')) == Some(kvs)
  {
    hide Split, IsClean, ParseItem, Item;
    var past, kv := kvs[..|kvs| - 1], kvs[|kvs| - 1];
    assert IsClean(kv.key) && IsClean(kv.value);
    CleanItem(kv);
    TrimLastComma(Printed(past), Item(kv));
    PrintedItems(past, Item(kv));
    SplitWhole(Item(kv), ',');
    ItemsParse(kvs);
  }

  lemma TrimLastComma(a: string, item: string)
    requires item != "" && item[|item| - 1] != ','
    ensures TrimRight(a + (item + ","), ',') == a + item
  {
    var s := a + (item + ",");
    assert s[..|s| - 1] == a + item;
    assert (a + item)[|a + item| - 1] == item[|item| - 1];
  }

  lemma {:induction false} TrimmedRight(s: string)
    ensures var t := TrimRightSpace(s); |t| <= |s| && s[..|t|] == t && (t != "" ==> !IsSpace(t[|t| - 1]))
  {
    hide IsSpace;
    if s != "" && IsSpace(s[|s| - 1]) {
      TrimmedRight(s[..|s| - 1]);
    }
  }

  lemma {:induction false} TrimmedLeft(s: string)
    ensures var t := TrimLeftSpace(s); |t| <= |s| && s[|s| - |t|..] == t && (t != "" ==> !IsSpace(t[0]))
  {
    hide IsSpace;
    if s != "" && IsSpace(s[0]) {
      TrimmedLeft(s[1..]);
    }
  }

  /** A trimmed text is part of the original and has no space left at either end. */
  lemma TrimmedSpace(s: string)
    ensures TrimSpace(TrimSpace(s)) == TrimSpace(s)
    ensures forall c :: c in TrimSpace(s) ==> c in s
  {
    hide IsSpace;
    var l := TrimLeftSpace(s);
    TrimmedLeft(s);
    TrimmedRight(l);
    var t := TrimRightSpace(l);
    if t != "" {
      assert t[0] == l[0];
    }
  }

  /** What parses is clean. */
  lemma ItemIsClean(item: string)
    requires ',' !in item && ParseItem(item).Some?
    ensures IsClean(ParseItem(item).value.key) && IsClean(ParseItem(item).value.value)
  {
    hide Split, TrimSpace;
    var parts := Split(item, '=');
    SplitPartsHaveNoSeparator(item, '=');
    PartsAreFromText(item, '=', 0);
    PartsAreFromText(item, '=', 1);
    TrimmedSpace(parts[0]);
    TrimmedSpace(parts[1]);
  }

  lemma {:induction false} PartsAreFromText(s: string, sep: char, i: nat)
    requires i < |Split(s, sep)|
    ensures forall c :: c in Split(s, sep)[i] ==> c in s
  {
    if s != "" {
      if s[0] == sep {
        if i > 0 { PartsAreFromText(s[1..], sep, i - 1); }
      } else {
        PartsAreFromText(s[1..], sep, i);
      }
    }
  }

  lemma {:induction false} ItemsAreClean(items: seq<string>)
    requires forall i :: 0 <= i < |items| ==> ',' !in items[i]
    requires ParseItems(items).Some?
    ensures |ParseItems(items).value| == |items| && AllClean(ParseItems(items).value)
  {
    hide ParseItem, IsClean;
    if items != [] {
      ItemsAreClean(items[..|items| - 1]);
      ItemIsClean(items[|items| - 1]);
    }
  }

  /** Printing and parsing gives the list back exactly when it is not empty and no key or value
      contains a ',' or '=' or begins or ends with a space. */
  lemma RoundTripIff(kvs: seq<KeyValue>)
    ensures Parsed(TrimRight(Printed(kvs), ',')) == Some(kvs) <==> kvs != [] && AllClean(kvs)
  {
    hide ParseItems, Printed, Split, TrimRight, AllClean;
    if kvs != [] && AllClean(kvs) {
      CleanRoundTrip(kvs);
    }
    if Parsed(TrimRight(Printed(kvs), ',')) == Some(kvs) {
      var s := TrimRight(Printed(kvs), ',');
      SplitPartsHaveNoSeparator(s, ',');
      ItemsAreClean(Split(s, ','));
    }
  }
}
