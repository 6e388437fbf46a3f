/** key_value.go and generic_param.go: `name` and `name=value` parameters. */
module KeyValues {
  import opened Wrappers
  import opened Text

  datatype KeyValue = KeyValue(key: string, value: string)

  /** The text of a parameter: an empty value is printed without `=`. */
  function PrintPair(kv: KeyValue): string {
    if kv.value == "" then kv.key else kv.key + "=" + kv.value
  }

  /** Cut at the first `=`; without one the whole text is the key. */
  function ParsePair(s: string): (kv: KeyValue)
    ensures '=' !in kv.key
  {
    match After(s, '=')
    case None => KeyValue(s, "")
    case Some(v) => KeyValue(Before(s, '='), v)
  }

  lemma ParsePairLacks(s: string, c: char)
    requires c !in s
    ensures c !in ParsePair(s).key && c !in ParsePair(s).value
  {
    CutLacks(s, '=', c);
  }

  function ParseGenericParam(s: string): Option<KeyValue> {
    if s == "" then None else Some(ParsePair(s))
  }

  lemma PairRoundTrip(kv: KeyValue)
    requires '=' !in kv.key
    ensures ParsePair(PrintPair(kv)) == kv
  {
    CutAt(kv.key, '=', kv.value);
  }

  function PrintPairs(kvs: seq<KeyValue>): (r: seq<string>)
    ensures |r| == |kvs|
    ensures forall i :: 0 <= i < |kvs| ==> r[i] == PrintPair(kvs[i])
  {
    seq(|kvs|, i requires 0 <= i < |kvs| => PrintPair(kvs[i]))
  }

  /** `;name=value` for each parameter, as every printer of a parameter list writes them. */
  function PrintParams(kvs: seq<KeyValue>): string {
    if kvs == [] then "" else ";" + PrintPair(kvs[0]) + PrintParams(kvs[1..])
  }

  lemma {:induction false} PrintParamsJoins(kvs: seq<KeyValue>)
    ensures PrintParams(kvs) == if kvs == [] then "" else ";" + Join(PrintPairs(kvs), ';')
  {
    if kvs != [] {
      PrintParamsJoins(kvs[1..]);
      assert PrintPairs(kvs)[1..] == PrintPairs(kvs[1..]);
    }
  }

  lemma {:induction false} PrintParamsAvoids(kvs: seq<KeyValue>, c: char)
    requires c != ';' && c != '='
    requires forall kv :: kv in kvs ==> c !in kv.key && c !in kv.value
    ensures c !in PrintParams(kvs)
  {
    if kvs != [] {
      assert kvs[0] in kvs;
      assert forall kv :: kv in kvs[1..] ==> kv in kvs;
      PrintParamsAvoids(kvs[1..], c);
    }
  }

  /** All the texts as generic parameters, or none when one of them is empty. */
  function ParseGenericParams(items: seq<string>): Option<seq<KeyValue>> {
    if items == [] then Some([])
    else
      var kv :- ParseGenericParam(items[0]);
      var rest :- ParseGenericParams(items[1..]);
      Some([kv] + rest)
  }

  /** What every parsed parameter satisfies (ParsedParamsAreGeneric). */
  predicate GenericParam(kv: KeyValue) {
    '=' !in kv.key && ';' !in kv.key && ';' !in kv.value
  }

  /** No item prints as nothing, as the one read from a lone `=` does. */
  predicate NoEmptyItem(kvs: seq<KeyValue>) {
    forall kv :: kv in kvs ==> PrintPair(kv) != ""
  }

  lemma {:induction false} ParsedParamsAreGeneric(items: seq<string>)
    requires ParseGenericParams(items).Some? && forall t :: t in items ==> ';' !in t
    ensures forall kv :: kv in ParseGenericParams(items).value ==> GenericParam(kv)
  {
    hide ParsePair;
    if items != [] {
      assert items[0] in items;
      ParsePairLacks(items[0], ';');
      assert forall t :: t in items[1..] ==> t in items;
      ParsedParamsAreGeneric(items[1..]);
    }
  }

  lemma {:induction false} ParsedParamsLack(items: seq<string>, c: char)
    requires ParseGenericParams(items).Some? && forall t :: t in items ==> c !in t
    ensures forall kv :: kv in ParseGenericParams(items).value ==> c !in kv.key && c !in kv.value
  {
    hide ParsePair;
    if items != [] {
      assert items[0] in items;
      ParsePairLacks(items[0], c);
      assert forall t :: t in items[1..] ==> t in items;
      ParsedParamsLack(items[1..], c);
    }
  }

  /** Printing drops nothing but the `=` of an empty value. */
  lemma {:induction false} PrintNoLonger(items: seq<string>)
    requires ParseGenericParams(items).Some?
    ensures |PrintParams(ParseGenericParams(items).value)| <= TotalLength(items)
  {
    if items != [] {
      PairNoLonger(items[0]);
      PrintNoLonger(items[1..]);
      var kvs := ParseGenericParams(items).value;
      assert kvs[0] == ParsePair(items[0]) && kvs[1..] == ParseGenericParams(items[1..]).value;
    }
  }

  lemma PairNoLonger(t: string)
    ensures |PrintPair(ParsePair(t))| <= |t|
  {
    if '=' in t {
      CutJoins(t, '=');
    }
  }

  lemma {:induction false} GenericParamsRoundTrip(kvs: seq<KeyValue>)
    requires forall kv :: kv in kvs ==> GenericParam(kv)
    ensures ParseGenericParams(PrintPairs(kvs)) == Some(kvs) <==> NoEmptyItem(kvs)
  {
    hide ParsePair, PrintPair;
    if kvs != [] {
      var kv, rest := kvs[0], kvs[1..];
      assert kv in kvs && GenericParam(kv);
      PairRoundTrip(kv);
      assert forall q :: q in rest ==> q in kvs;
      GenericParamsRoundTrip(rest);
      assert PrintPairs(kvs)[1..] == PrintPairs(rest);
      assert kvs == [kv] + rest;
      assert forall q :: q in kvs <==> q == kv || q in rest;
    }
  }

  /** The printed `;`-list splits back into its items. */
  lemma PrintParamsSplits(kvs: seq<KeyValue>)
    requires kvs != []
    requires forall kv :: kv in kvs ==> ';' !in kv.key && ';' !in kv.value
    ensures PrintParams(kvs) != "" && PrintParams(kvs)[0] == ';'
    ensures Split(PrintParams(kvs)[1..], ';') == PrintPairs(kvs)
  {
    PrintParamsJoins(kvs);
    forall p | p in PrintPairs(kvs)
      ensures ';' !in p
    {
      var i :| 0 <= i < |kvs| && p == PrintPair(kvs[i]);
      assert kvs[i] in kvs;
    }
    SplitJoin(PrintPairs(kvs), ';');
  }

  /** The loop by which every parser of a `;`-list collects its items; it stops at an empty one. */
  method CollectParams(text: string) returns (r: Option<seq<KeyValue>>)
    ensures r == ParseGenericParams(Split(text, ';'))
  {
    hide Split, ParseGenericParam;
    var items := Split(text, ';');
    var kvs := [];
    var i := 0;
    assert items[0..] == items;
    assert forall r: seq<KeyValue> :: [] + r == r;
    while i < |items|
      invariant 0 <= i <= |items|
      invariant ParseGenericParams(items) == Prefixed(kvs, ParseGenericParams(items[i..]))
    {
      var kv := ParseGenericParam(items[i]);
      ghost var rest := ParseGenericParams(items[i + 1..]);
      assert items[i..][1..] == items[i + 1..];
      if kv.None? {
        return None;
      }
      assert rest.Some? ==> kvs + ([kv.value] + rest.value) == (kvs + [kv.value]) + rest.value;
      kvs := kvs + [kv.value];
      i := i + 1;
    }
    assert kvs + [] == kvs;
    return Some(kvs);
  }

  /** The loop by which every printer of a `;`-list writes its items. */
  method AppendParams(front: string, kvs: seq<KeyValue>) returns (buf: string)
    ensures buf == front + PrintParams(kvs)
  {
    hide PrintPair;
    buf := front;
    var i := 0;
    while i < |kvs|
      invariant 0 <= i <= |kvs|
      invariant front + PrintParams(kvs) == buf + PrintParams(kvs[i..])
    {
      var item := WritePair(kvs[i]);
      ghost var before := buf;
      buf := buf + ";" + item;
      assert kvs[i..][1..] == kvs[i + 1..];
      assert before + PrintParams(kvs[i..]) == buf + PrintParams(kvs[i + 1..]);
      i := i + 1;
    }
  }

  method WritePair(kv: KeyValue) returns (item: string)
    ensures item == PrintPair(kv)
  {
    item := kv.key;
    if |kv.value| > 0 {
      item := item + "=";
      item := item + kv.value;
    }
  }

  /** The loop that changes the first pair of a name in place or appends one. */
  method StoreInPlace(kvs: seq<KeyValue>, name: string, value: string) returns (r: seq<KeyValue>)
    ensures r == Store(kvs, name, value)
  {
    var i := 0;
    while i < |kvs|
      invariant 0 <= i <= |kvs|
      invariant forall j :: 0 <= j < i ==> kvs[j].key != name
    {
      if kvs[i].key == name {
        StoreSplit(kvs, i, name, value);
        return kvs[i := KeyValue(kvs[i].key, value)];
      }
      i := i + 1;
    }
    StoreSplit(kvs, i, name, value);
    return kvs + [KeyValue(name, value)];
  }

  // ---- a parameter list used as a small map: the first pair of a name counts ----

  function Lookup(kvs: seq<KeyValue>, name: string): Option<string> {
    if kvs == [] then None
    else if kvs[0].key == name then Some(kvs[0].value)
    else Lookup(kvs[1..], name)
  }

  /** Change the first pair of that name, or append one. */
  function Store(kvs: seq<KeyValue>, name: string, value: string): seq<KeyValue> {
    if kvs == [] then [KeyValue(name, value)]
    else if kvs[0].key == name then [KeyValue(name, value)] + kvs[1..]
    else [kvs[0]] + Store(kvs[1..], name, value)
  }

  lemma {:induction false} LookupStore(kvs: seq<KeyValue>, name: string, value: string, other: string)
    ensures Lookup(Store(kvs, name, value), other) == if other == name then Some(value) else Lookup(kvs, other)
  {
    if kvs != [] && kvs[0].key != name {
      LookupStore(kvs[1..], name, value, other);
      assert Store(kvs, name, value)[1..] == Store(kvs[1..], name, value);
    }
  }

  /** Storing keeps the names and their order; only a new name joins, at the end. */
  lemma {:induction false} StoreKeepsNames(kvs: seq<KeyValue>, name: string, value: string)
    ensures var r := Store(kvs, name, value);
      && |r| == (if Lookup(kvs, name).Some? then |kvs| else |kvs| + 1)
      && (forall i :: 0 <= i < |kvs| ==> r[i].key == kvs[i].key && (kvs[i].key != name ==> r[i] == kvs[i]))
      && (Lookup(kvs, name).None? ==> r[|kvs|] == KeyValue(name, value))
  {
    if kvs != [] && kvs[0].key != name {
      StoreKeepsNames(kvs[1..], name, value);
      assert Store(kvs, name, value)[1..] == Store(kvs[1..], name, value);
    }
  }

  predicate FirstOfName(kvs: seq<KeyValue>, i: nat, name: string) {
    i < |kvs| && kvs[i].key == name && forall j :: 0 <= j < i ==> kvs[j].key != name
  }

  /** A lookup answers the first pair of the name. */
  lemma {:induction false} LookupIsFirst(kvs: seq<KeyValue>, name: string)
    ensures forall i: nat :: FirstOfName(kvs, i, name) ==> Lookup(kvs, name) == Some(kvs[i].value)
    ensures Lookup(kvs, name).None? <==> forall kv :: kv in kvs ==> kv.key != name
  {
    if kvs != [] && kvs[0].key != name {
      LookupIsFirst(kvs[1..], name);
      assert forall kv :: kv in kvs <==> kv == kvs[0] || kv in kvs[1..];
      forall i: nat | FirstOfName(kvs, i, name)
        ensures i > 0 && FirstOfName(kvs[1..], i - 1, name)
      {
      }
    } else if kvs != [] {
      assert kvs[0] in kvs;
      assert forall i: nat :: FirstOfName(kvs, i, name) ==> i == 0;
    }
  }

  /** A loop that scans for the first pair of a name has, at its stopping point, the list `Store` describes. */
  lemma {:induction false} StoreSplit(kvs: seq<KeyValue>, i: nat, name: string, value: string)
    requires i <= |kvs|
    requires forall j :: 0 <= j < i ==> kvs[j].key != name
    ensures Store(kvs, name, value) == kvs[..i] + Store(kvs[i..], name, value)
    ensures Lookup(kvs, name) == Lookup(kvs[i..], name)
  {
    if i == 0 {
      assert kvs[0..] == kvs;
    } else {
      StoreSplit(kvs[1..], i - 1, name, value);
      assert kvs[1..][i - 1..] == kvs[i..];
      assert kvs[..i] == [kvs[0]] + kvs[1..][..i - 1];
    }
  }
}
