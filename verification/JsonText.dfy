/** What a JSON file keeps of an encoded value: written as text, every dictionary key is a
    string, so numbers and enum members come back as their text. */
module JsonText {
  import opened Options
  import opened Sequences
  import opened TypedJson
  import AttributeText

  function TextOf(key: Key): string
  {
    match key
    case Plain(s) => s
    case Number(i) => AttributeText.IntText(i)
    case Member(_, _, value) => value
  }

  function Texts(keys: seq<Key>): (names: seq<string>)
    ensures |names| == |keys| && forall i :: 0 <= i < |keys| ==> names[i] == TextOf(keys[i])
  {
    seq(|keys|, i requires 0 <= i < |keys| => TextOf(keys[i]))
  }

  // Reading an object with a repeated name keeps the first position and the last item.
  function Firsts(names: seq<string>): (firsts: seq<string>)
    ensures NoDuplicates(firsts)
    ensures forall i :: 0 <= i < |firsts| ==> firsts[i] in names
  {
    if names == [] then []
    else
      var before, last := Firsts(names[..|names| - 1]), names[|names| - 1];
      if last in before then before else before + [last]
  }

  function LastAt(names: seq<string>, name: string): (i: nat)
    requires name in names
    ensures i < |names| && names[i] == name
  {
    if names[|names| - 1] == name then |names| - 1 else LastAt(names[..|names| - 1], name)
  }

  function Collapsed<T>(names: seq<string>, items: seq<T>): (r: seq<T>)
    requires |names| == |items|
    ensures |r| == |Firsts(names)|
    ensures forall k :: 0 <= k < |r| ==> r[k] == items[LastAt(names, Firsts(names)[k])]
  {
    var firsts := Firsts(names);
    seq(|firsts|, k requires 0 <= k < |firsts| => items[LastAt(names, firsts[k])])
  }

  /** Dumping to text and loading. */
  function Reloaded(j: Json): Json
    decreases j, 1
  {
    match j
    case JDict(keys, items) =>
      if |keys| == |items| then JDict(Plains(Firsts(Texts(keys))), Collapsed(Texts(keys), ReloadedAll(items))) else j
    case JList(items) => JList(ReloadedAll(items))
    case _ => j
  }

  function ReloadedAll(items: seq<Json>): (r: seq<Json>)
    ensures |r| == |items|
    decreases items, 0
  {
    if items == [] then [] else [Reloaded(items[0])] + ReloadedAll(items[1..])
  }

  /** The value with every dictionary key turned into its text. */
  function Stringified(v: Value): Value
    decreases v, 1
  {
    match v
    case Dict(keys, items) =>
      if |keys| == |items| then Dict(Plains(Firsts(Texts(keys))), Collapsed(Texts(keys), StringifiedAll(items))) else v
    case Named(cls, home, fields, items) => Named(cls, home, fields, StringifiedAll(items))
    case Tuple(items) => Tuple(StringifiedAll(items))
    case List(items) => List(StringifiedAll(items))
    case _ => v
  }

  function StringifiedAll(items: seq<Value>): (r: seq<Value>)
    ensures |r| == |items|
    decreases items, 0
  {
    if items == [] then [] else [Stringified(items[0])] + StringifiedAll(items[1..])
  }

  // ---- Names that do not repeat ----------------------------------------------------------------------

  lemma {:induction false} FirstsOfDistinct(names: seq<string>)
    requires NoDuplicates(names)
    ensures Firsts(names) == names
  {
    if names != [] {
      FirstsOfDistinct(names[..|names| - 1]);
      assert names == names[..|names| - 1] + [names[|names| - 1]];
    }
  }

  lemma LastOfDistinct(names: seq<string>, k: nat)
    requires NoDuplicates(names) && k < |names|
    ensures LastAt(names, names[k]) == k
  {
    var i := LastAt(names, names[k]);
    assert names[i] == names[k];
  }

  lemma CollapsedDistinct<T>(names: seq<string>, items: seq<T>)
    requires NoDuplicates(names) && |names| == |items|
    ensures Firsts(names) == names && Collapsed(names, items) == items
  {
    FirstsOfDistinct(names);
    forall k | 0 <= k < |names|
      ensures Collapsed(names, items)[k] == items[k]
    {
      LastOfDistinct(names, k);
    }
    hide NoDuplicates, Firsts, LastAt;
  }

  lemma TextsOfPlains(names: seq<string>)
    ensures Texts(Plains(names)) == names
  {
  }

  lemma ObjectReloaded(names: seq<string>, items: seq<Json>)
    requires NoDuplicates(names) && |names| == |items|
    ensures Reloaded(JDict(Plains(names), items)) == JDict(Plains(names), ReloadedAll(items))
  {
    TextsOfPlains(names);
    CollapsedDistinct(names, ReloadedAll(items));
    hide Texts, Plains, Collapsed, Firsts, ReloadedAll;
  }

  lemma TwoItems(one: Json, two: Json)
    ensures ReloadedAll([one, two]) == [Reloaded(one), Reloaded(two)]
  {
    assert [one, two][1..] == [two] && [two][1..] == [];
    assert ReloadedAll([two]) == [Reloaded(two)];
  }

  lemma ThreeItems(one: Json, two: Json, three: Json)
    ensures ReloadedAll([one, two, three]) == [Reloaded(one), Reloaded(two), Reloaded(three)]
  {
    assert [one, two, three][1..] == [two, three];
    TwoItems(two, three);
  }

  // ---- Dumping and loading an encoded value -----------------------------------------------------------

  lemma TaggedReloaded(tag: string, key: string, item: Json)
    requires key != "__type__"
    ensures Reloaded(JDict(Plains(["__type__", key]), [JStr(tag), item]))
        == JDict(Plains(["__type__", key]), [JStr(tag), Reloaded(item)])
  {
    ObjectReloaded(["__type__", key], [JStr(tag), item]);
    TwoItems(JStr(tag), item);
    hide ReloadedAll, Plains;
  }

  lemma ClassReloaded(tag: string, home: string, key: string, item: Json)
    requires key != "__type__" && key != "__module__"
    ensures Reloaded(JDict(Plains(["__type__", "__module__", key]), [JStr(tag), JStr(home), item]))
         == JDict(Plains(["__type__", "__module__", key]), [JStr(tag), JStr(home), Reloaded(item)])
  {
    ObjectReloaded(["__type__", "__module__", key], [JStr(tag), JStr(home), item]);
    ThreeItems(JStr(tag), JStr(home), item);
    hide ReloadedAll, Plains;
  }

  lemma {:induction false} PartKeysDistinct(names: seq<string>, parts: seq<Option<int>>)
    requires NoDuplicates(names) && |names| == |parts|
    ensures NoDuplicates(PartKeys(names, parts)) && forall key :: key in PartKeys(names, parts) ==> key in names
    ensures |PartKeys(names, parts)| == |PartItems(names, parts)|
    ensures ReloadedAll(PartItems(names, parts)) == PartItems(names, parts)
    decreases names
  {
    if names != [] {
      PartKeysDistinct(names[1..], parts[1..]);
      assert names[0] !in names[1..];
      var items := PartItems(names[1..], parts[1..]);
      assert [] + items == items;
      if Written(parts[0]) {
        assert ([JInt(parts[0].value)] + items)[1..] == items;
      }
    }
  }

  lemma PartsObjectReloaded(amounts: seq<string>, fields: seq<string>, relative: seq<int>, absolute: seq<Option<int>>)
    requires |relative| == |amounts| && |absolute| == |fields| && NoDuplicates(amounts + fields)
    ensures Reloaded(EncodeParts(amounts, fields, relative, absolute))
        == EncodeParts(amounts, fields, relative, absolute)
  {
    var names, parts := amounts + fields, AllParts(relative, absolute);
    PartKeysDistinct(names, parts);
    ObjectReloaded(PartKeys(names, parts), PartItems(names, parts));
    hide Plains, PartKeys, PartItems, Reloaded, NoDuplicates;
  }

  lemma PartsReloaded(relative: seq<int>, absolute: seq<Option<int>>)
    requires |relative| == |RELATIVE| && |absolute| == |ABSOLUTE|
    ensures Reloaded(Encode(RelativeDelta(relative, absolute))) == Encode(RelativeDelta(relative, absolute))
  {
    PartNamesDistinct();
    PartsObjectReloaded(RELATIVE, ABSOLUTE, relative, absolute);
    TaggedReloaded("relativedelta", "__data__", EncodeParts(RELATIVE, ABSOLUTE, relative, absolute));
    hide Plains, EncodeParts, Reloaded, NoDuplicates;
  }

  lemma {:induction false} DecodesPointwise(d: Decoder, items: seq<Json>, values: seq<Value>)
    ensures DecodeAll(d, items) == Some(values)
      <==> |values| == |items| && forall i :: 0 <= i < |items| ==> Decode(d, items[i]) == Some(values[i])
    decreases items
  {
    hide Decode;
    if items != [] {
      if values != [] {
        DecodesPointwise(d, items[1..], values[1..]);
        assert values == [values[0]] + values[1..];
        assert forall i :: 0 < i < |items| ==> items[i] == items[1..][i - 1];
      }
      if DecodeAll(d, items) == Some(values) {
        var rest := DecodeAll(d, items[1..]);
        assert values[1..] == rest.value;
      }
    }
  }

  lemma CollapsedDecodes(d: Decoder, names: seq<string>, items: seq<Json>, values: seq<Value>)
    requires |names| == |items| && DecodeAll(d, items) == Some(values)
    ensures |values| == |items| && DecodeAll(d, Collapsed(names, items)) == Some(Collapsed(names, values))
  {
    hide Decode, DecodeAll;
    DecodesPointwise(d, items, values);
    DecodesPointwise(d, Collapsed(names, items), Collapsed(names, values));
  }

  lemma NumbersAreNoTag(i: int)
    ensures AttributeText.IntText(i) != "__type__"
  {
    var text := AttributeText.IntText(i);
    assert i < 0 ==> text[0] == '-';
    assert i >= 0 ==> AttributeText.IsDigit(text[0]);
    assert "__type__"[0] == '_';
  }

  lemma TextsHaveNoTag(keys: seq<Key>)
    requires !HasKey(keys, "__type__")
    ensures "__type__" !in Texts(keys)
  {
    forall i | 0 <= i < |keys|
      ensures Texts(keys)[i] != "__type__"
    {
      assert !IsNamed(keys[i], "__type__");
      if keys[i].Number? {
        NumbersAreNoTag(keys[i].i);
      }
    }
  }

  lemma DictReloaded(d: Decoder, keys: seq<Key>, items: seq<Json>, values: seq<Value>)
    requires |keys| == |items| && !HasKey(keys, "__type__") && DecodeAll(d, ReloadedAll(items)) == Some(values)
    ensures |values| == |keys|
    ensures Decode(d, Reloaded(JDict(keys, items)))
        == Some(Dict(Plains(Firsts(Texts(keys))), Collapsed(Texts(keys), values)))
  {
    var names := Texts(keys);
    CollapsedDecodes(d, names, ReloadedAll(items), values);
    TextsHaveNoTag(keys);
    var firsts := Firsts(names);
    assert "__type__" !in firsts;
    GetPlain(firsts, Collapsed(names, ReloadedAll(items)), "__type__");
    LookupAbsent(firsts, Collapsed(names, ReloadedAll(items)), "__type__");
    hide Get, Lookup, DecodeAll, ReloadedAll, Texts, Firsts, Collapsed, Plains, DecodeTagged, HasKey;
  }

  /** What a supported value comes back as when it is encoded, dumped, loaded and decoded:
      the same value with every dictionary key turned into its text. */
  lemma {:induction false} FileRoundTrip(d: Decoder, v: Value)
    requires Supported(d, v)
    ensures Decode(d, Reloaded(Encode(v))) == Some(Stringified(v))
    decreases v, 1
  {
    hide Decode, Encode, Reloaded, Stringified;
    match v
    case Dict(_, items) => FileRoundTripAll(d, items); DictRoundTrip(d, v);
    case Named(_, _, _, items) => FileRoundTripAll(d, items); NamedRoundTrip(d, v);
    case Tuple(items) => FileRoundTripAll(d, items); TupleRoundTrip(d, items);
    case List(items) => FileRoundTripAll(d, items); ListRoundTrip(d, items);
    case _ => LeafRoundTrip(d, v);
  }

  lemma {:induction false} FileRoundTripAll(d: Decoder, items: seq<Value>)
    requires AllSupported(d, items)
    ensures DecodeAll(d, ReloadedAll(EncodeAll(items))) == Some(StringifiedAll(items))
    decreases items, 0
  {
    hide Decode, Encode, Reloaded, Stringified, Supported;
    if items != [] {
      FileRoundTrip(d, items[0]);
      FileRoundTripAll(d, items[1..]);
      assert EncodeAll(items)[1..] == EncodeAll(items[1..]);
      assert ReloadedAll(EncodeAll(items))[1..] == ReloadedAll(EncodeAll(items[1..]));
    }
  }

  lemma DictRoundTrip(d: Decoder, v: Value)
    requires v.Dict? && Supported(d, v)
        && DecodeAll(d, ReloadedAll(EncodeAll(v.items))) == Some(StringifiedAll(v.items))
    ensures Decode(d, Reloaded(Encode(v))) == Some(Stringified(v))
  {
    hide Decode, Reloaded, EncodeAll, ReloadedAll, DecodeAll, HasKey, DistinctKeys, AllSupported, StringifiedAll,
        Firsts, Texts;
    DictReloaded(d, v.keys, EncodeAll(v.items), StringifiedAll(v.items));
  }

  lemma NamedRoundTrip(d: Decoder, v: Value)
    requires v.Named? && Supported(d, v)
        && DecodeAll(d, ReloadedAll(EncodeAll(v.items))) == Some(StringifiedAll(v.items))
    ensures Decode(d, Reloaded(Encode(v))) == Some(Stringified(v))
  {
    var data := JDict(Plains(v.fields), EncodeAll(v.items));
    ClassReloaded(v.cls, v.home, "__data__", data);
    ObjectReloaded(v.fields, EncodeAll(v.items));
    TaggedClass(JStr(v.cls), JStr(v.home), "__data__", Reloaded(data));
    NamesOfPlains(v.fields);
    hide Decode, Reloaded, EncodeAll, ReloadedAll, DecodeAll, AllSupported, StringifiedAll, Get, NamesOf, Plains,
        BuiltIn;
    ClassDecoded(d, Reloaded(Encode(v)), v.cls, Plains(v.fields), ReloadedAll(EncodeAll(v.items)),
        StringifiedAll(v.items));
  }

  lemma TupleRoundTrip(d: Decoder, items: seq<Value>)
    requires DecodeAll(d, ReloadedAll(EncodeAll(items))) == Some(StringifiedAll(items))
    ensures Decode(d, Reloaded(Encode(Tuple(items)))) == Some(Stringified(Tuple(items)))
  {
    TaggedReloaded("tuple", "__data__", JList(EncodeAll(items)));
    TupleObjectDecoded(d, ReloadedAll(EncodeAll(items)), StringifiedAll(items));
    hide Decode, EncodeAll, DecodeAll, ReloadedAll, StringifiedAll, Plains;
  }

  lemma ListRoundTrip(d: Decoder, items: seq<Value>)
    requires DecodeAll(d, ReloadedAll(EncodeAll(items))) == Some(StringifiedAll(items))
    ensures Decode(d, Reloaded(Encode(List(items)))) == Some(Stringified(List(items)))
  {
    hide EncodeAll, DecodeAll, ReloadedAll, StringifiedAll;
  }

  lemma LeafRoundTrip(d: Decoder, v: Value)
    requires Supported(d, v) && !v.Dict? && !v.Named? && !v.Tuple? && !v.List?
    ensures Decode(d, Reloaded(Encode(v))) == Some(Stringified(v))
  {
    LeafReloaded(d, v);
    hide Decode, Encode, Reloaded;
    DecodeInvertsEncode(d, v);
  }

  lemma ScalarReloaded(item: Json)
    requires item.JStr? || item.JFloat?
    ensures Reloaded(item) == item
  {
  }

  lemma DateTimeReloaded(iso: string)
    ensures Reloaded(Encode(DateTime(iso))) == Encode(DateTime(iso))
  {
    hide Plains, Reloaded;
    ScalarReloaded(JStr(iso));
    TaggedReloaded("datetime", "__value__", JStr(iso));
  }

  lemma TimeDeltaReloaded(microseconds: int)
    ensures Reloaded(Encode(TimeDelta(microseconds))) == Encode(TimeDelta(microseconds))
  {
    hide Plains, Reloaded;
    var seconds := JFloat(microseconds as real / 1000000.0);
    ScalarReloaded(seconds);
    TaggedReloaded("timedelta", "__total_seconds__", seconds);
  }

  lemma EnumReloaded(cls: string, home: string, value: string)
    ensures Reloaded(Encode(Enum(cls, home, value))) == Encode(Enum(cls, home, value))
  {
    hide Plains, Reloaded;
    ScalarReloaded(JStr(value));
    ClassReloaded(cls, home, "__value__", JStr(value));
  }

  lemma LeafReloaded(d: Decoder, v: Value)
    requires Supported(d, v) && !v.Dict? && !v.Named? && !v.Tuple? && !v.List?
    ensures Reloaded(Encode(v)) == Encode(v)
  {
    if v.Enum? {
      EnumReloaded(v.cls, v.home, v.value);
      hide Encode, Reloaded;
    } else if v.DateTime? {
      DateTimeReloaded(v.iso);
      hide Encode, Reloaded;
    } else if v.TimeDelta? {
      TimeDeltaReloaded(v.microseconds);
      hide Encode, Reloaded;
    } else if v.RelativeDelta? {
      PartsReloaded(v.relative, v.absolute);
      hide Encode, Reloaded;
    }
  }

  // ---- When the file keeps the value ---------------------------------------------------------------------

  predicate PlainKeys(v: Value)
    decreases v, 1
  {
    match v
    case Dict(keys, items) => (forall i :: 0 <= i < |keys| ==> keys[i].Plain?) && AllPlainKeys(items)
    case Named(_, _, _, items) => AllPlainKeys(items)
    case Tuple(items) => AllPlainKeys(items)
    case List(items) => AllPlainKeys(items)
    case _ => true
  }

  predicate AllPlainKeys(items: seq<Value>)
    decreases items, 0
  {
    items != [] ==> PlainKeys(items[0]) && AllPlainKeys(items[1..])
  }

  lemma PlainDistinctTexts(keys: seq<Key>)
    requires DistinctKeys(keys) && forall i :: 0 <= i < |keys| ==> keys[i].Plain?
    ensures NoDuplicates(Texts(keys)) && Plains(Texts(keys)) == keys
  {
    forall i, j | 0 <= i < j < |keys|
      ensures Texts(keys)[i] != Texts(keys)[j]
    {
      assert !SameKey(keys[i], keys[j]);
    }
  }

  lemma {:induction false} StringifiedExactly(d: Decoder, v: Value)
    requires Supported(d, v)
    ensures Stringified(v) == v <==> PlainKeys(v)
    decreases v, 1
  {
    match v
    case Dict(keys, items) => StringifiedAllExactly(d, items); DictExactly(d, v);
    case Named(_, _, _, items) => StringifiedAllExactly(d, items);
    case Tuple(items) => StringifiedAllExactly(d, items);
    case List(items) => StringifiedAllExactly(d, items);
    case _ =>
  }

  lemma DictExactly(d: Decoder, v: Value)
    requires v.Dict? && Supported(d, v) && (StringifiedAll(v.items) == v.items <==> AllPlainKeys(v.items))
    ensures Stringified(v) == v <==> PlainKeys(v)
  {
    var names := Texts(v.keys);
    hide StringifiedAll, AllPlainKeys, AllSupported, HasKey, Firsts;
    if forall i :: 0 <= i < |v.keys| ==> v.keys[i].Plain? {
      PlainDistinctTexts(v.keys);
      CollapsedDistinct(names, StringifiedAll(v.items));
    }
  }

  lemma {:induction false} StringifiedAllExactly(d: Decoder, items: seq<Value>)
    requires AllSupported(d, items)
    ensures StringifiedAll(items) == items <==> AllPlainKeys(items)
    decreases items, 0
  {
    hide Stringified, PlainKeys, Supported;
    if items != [] {
      StringifiedExactly(d, items[0]);
      StringifiedAllExactly(d, items[1..]);
      assert items == [items[0]] + items[1..];
      assert StringifiedAll(items)[1..] == StringifiedAll(items[1..]);
    }
  }

  /** A file keeps a supported value exactly when all its dictionaries have plain string keys;
      a dictionary by number, or by enum member, comes back with texts as its keys. */
  lemma FileKeepsExactly(d: Decoder, v: Value)
    requires Supported(d, v)
    ensures Decode(d, Reloaded(Encode(v))) == Some(v) <==> PlainKeys(v)
  {
    hide Decode, Reloaded, Encode, Stringified, PlainKeys, Supported;
    FileRoundTrip(d, v);
    StringifiedExactly(d, v);
  }

  /** A dictionary by pull request number, as most stored values are, is not kept: 7 comes back
      as "7". */
  lemma NumberedDictionaryIsNotKept(d: Decoder)
    ensures Decode(d, Reloaded(Encode(Dict([Number(7)], [Bool(true)])))) == Some(Dict([Plain("7")], [Bool(true)]))
  {
    assert AttributeText.NatText(7) == "7";
    assert Supported(d, Bool(true)) && Stringified(Bool(true)) == Bool(true);
    hide Decode, Reloaded, Encode, Supported, Stringified;
    SingleEntryIsSupported(d, Number(7), Bool(true));
    FileRoundTrip(d, Dict([Number(7)], [Bool(true)]));
    SingleEntryStringified(Number(7), Bool(true));
  }

  lemma SingleEntryIsSupported(d: Decoder, key: Key, item: Value)
    requires Supported(d, item) && !IsNamed(key, "__type__")
    ensures Supported(d, Dict([key], [item]))
  {
    assert AllSupported(d, [item][1..]);
    hide IsNamed;
  }

  lemma SingleEntryStringified(key: Key, item: Value)
    ensures Stringified(Dict([key], [item])) == Dict([Plain(TextOf(key))], [Stringified(item)])
  {
    var names := [TextOf(key)];
    assert Texts([key]) == names && Plains(names) == [Plain(TextOf(key))];
    assert StringifiedAll([item]) == [Stringified(item)];
    CollapsedDistinct(names, StringifiedAll([item]));
    hide Texts, Plains, Collapsed, Firsts, StringifiedAll, TextOf;
  }

  /** A number used as a key is recovered from its text by reading it as an integer. */
  lemma NumberKeysReadBack(i: int)
    ensures AttributeText.ReadInt(TextOf(Number(i))) == Some(i)
  {
    AttributeText.ReadItemValue(AttributeText.Item("", i, false));
    assert AttributeText.SignedText(AttributeText.Item("", i, false)) == AttributeText.IntText(i);
  }
}
