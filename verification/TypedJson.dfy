/** The typed JSON encoding: values become plain JSON objects that carry a type tag, and
    are read back. The main theorem is that decoding inverts encoding. */
module TypedJson {
  import opened Options
  import opened Sequences

  // Eight relative amounts and seven absolute fields, in the order in which they are written.
  const RELATIVE: seq<string> :=
    ["years", "months", "days", "hours", "minutes", "seconds", "microseconds", "leapdays"]
  const ABSOLUTE: seq<string> := ["year", "month", "day", "hour", "minute", "second", "microsecond"]

  /** A dictionary key: a plain string, a number, or an enum member, which is a string too
      and equals the plain one with its value. */
  datatype Key = Plain(s: string) | Number(i: int) | Member(cls: string, home: string, value: string)

  /** A dictionary is a list of keys and the list of their values, in insertion order; a
      datetime is represented by the text isoformat prints for it. */
  datatype Value =
    | Null
    | Bool(b: bool)
    | Int(i: int)
    | Float(x: real)
    | Str(s: string)
    | List(items: seq<Value>)
    | Tuple(items: seq<Value>)
    | Dict(keys: seq<Key>, items: seq<Value>)
    | Named(cls: string, home: string, fields: seq<string>, items: seq<Value>)
    | Enum(cls: string, home: string, value: string)
    | DateTime(iso: string)
    | TimeDelta(microseconds: int)
    | RelativeDelta(relative: seq<int>, absolute: seq<Option<int>>)

  datatype Json =
    | JNull
    | JBool(b: bool)
    | JInt(i: int)
    | JFloat(x: real)
    | JStr(s: string)
    | JList(items: seq<Json>)
    | JDict(keys: seq<Key>, items: seq<Json>)

  /** A class that can be rebuilt, with the module it lives in. */
  datatype Class = EnumClass(home: string, values: set<string>) | TupleClass(home: string, fields: seq<string>)

  /** The class registry, and the library's reading of ISO texts: the result is the text
      isoformat prints for the datetime read. */
  datatype Decoder = Decoder(registry: map<string, Class>, parseIso: string -> Option<string>)

  // ---- Keys ------------------------------------------------------------------------------------

  predicate IsNamed(key: Key, name: string)
  {
    match key
    case Plain(s) => s == name
    case Number(_) => false
    case Member(_, _, value) => value == name
  }

  predicate SameKey(a: Key, b: Key)
  {
    match b
    case Plain(s) => IsNamed(a, s)
    case Number(_) => a == b
    case Member(_, _, value) => IsNamed(a, value)
  }

  function Plains(names: seq<string>): (keys: seq<Key>)
    ensures |keys| == |names| && forall i :: 0 <= i < |names| ==> keys[i] == Plain(names[i])
  {
    seq(|names|, i requires 0 <= i < |names| => Plain(names[i]))
  }

  // Keyword arguments need strings.
  function NamesOf(keys: seq<Key>): Option<seq<string>>
  {
    if keys == [] then Some([])
    else
      match (keys[0], NamesOf(keys[1..]))
      case (Plain(s), Some(rest)) => Some([s] + rest)
      case (Member(_, _, value), Some(rest)) => Some([value] + rest)
      case (_, _) => None
  }

  // ---- Encoding ------------------------------------------------------------------------------

  function Encode(v: Value): Json
    decreases v, 1
  {
    match v
    case Named(cls, home, keys, items) =>
      JDict(Plains(["__type__", "__module__", "__data__"]),
          [JStr(cls), JStr(home), JDict(Plains(keys), EncodeAll(items))])
    case Enum(cls, home, value) =>
      JDict(Plains(["__type__", "__module__", "__value__"]), [JStr(cls), JStr(home), JStr(value)])
    case DateTime(iso) => JDict(Plains(["__type__", "__value__"]), [JStr("datetime"), JStr(iso)])
    case TimeDelta(us) =>
      JDict(Plains(["__type__", "__total_seconds__"]), [JStr("timedelta"), JFloat(us as real / 1000000.0)])
    case RelativeDelta(relative, absolute) =>
      JDict(Plains(["__type__", "__data__"]),
          [JStr("relativedelta"), EncodeParts(RELATIVE, ABSOLUTE, relative, absolute)])
    case Str(s) => JStr(s)
    case Dict(keys, items) => JDict(keys, EncodeAll(items))
    case Tuple(items) => JDict(Plains(["__type__", "__data__"]), [JStr("tuple"), JList(EncodeAll(items))])
    case List(items) => JList(EncodeAll(items))
    case Null => JNull
    case Bool(b) => JBool(b)
    case Int(i) => JInt(i)
    case Float(x) => JFloat(x)
  }

  /** The form in which other programs find the tagged values in the files. */
  lemma EncodedForms(d: int)
    ensures Encode(TimeDelta(1_500_000 * d))
         == JDict([Plain("__type__"), Plain("__total_seconds__")], [JStr("timedelta"), JFloat(1.5 * d as real)])
    ensures Encode(DateTime("2024-07-09"))
         == JDict([Plain("__type__"), Plain("__value__")], [JStr("datetime"), JStr("2024-07-09")])
    ensures Encode(Enum("PRStatus", "classify", "Blocked"))
         == JDict([Plain("__type__"), Plain("__module__"), Plain("__value__")],
                  [JStr("PRStatus"), JStr("classify"), JStr("Blocked")])
    ensures Encode(Tuple([])) == JDict([Plain("__type__"), Plain("__data__")], [JStr("tuple"), JList([])])
    ensures Encode(Named("Label", "util", [], []))
         == JDict([Plain("__type__"), Plain("__module__"), Plain("__data__")],
                  [JStr("Label"), JStr("util"), JDict([], [])])
    ensures Encode(RelativeDelta([], []))
        == JDict([Plain("__type__"), Plain("__data__")], [JStr("relativedelta"), JDict([], [])])
  {
  }

  /** The names of the parts of a relativedelta, by position. */
  lemma PartNames(k: nat, v: int)
    requires k < 15 && v != 0
    ensures var names := ["years", "months", "days", "hours", "minutes", "seconds", "microseconds", "leapdays",
                          "year", "month", "day", "hour", "minute", "second", "microsecond"];
            var (relative, absolute) := (seq(8, i => if i == k then v else 0),
                seq(7, i => if i + 8 == k then Some(v) else None));
            EncodeParts(RELATIVE, ABSOLUTE, relative, absolute) == JDict([Plain(names[k])], [JInt(v)])
  {
    var (relative, absolute) := (seq(8, i => if i == k then v else 0),
        seq(7, i => if i + 8 == k then Some(v) else None));
    var names, parts := RELATIVE + ABSOLUTE, AllParts(relative, absolute);
    OnlyPart(names, parts, k);
    assert Plains([names[k]]) == [Plain(names[k])];
  }

  lemma {:induction false} OnlyPart(names: seq<string>, parts: seq<Option<int>>, k: nat)
    requires |names| == |parts| && k < |parts| && Written(parts[k])
    requires forall i :: 0 <= i < |parts| && i != k ==> !Written(parts[i])
    ensures PartKeys(names, parts) == [names[k]] && PartItems(names, parts) == [JInt(parts[k].value)]
  {
    if k == 0 {
      NoParts(names[1..], parts[1..]);
    } else {
      OnlyPart(names[1..], parts[1..], k - 1);
    }
  }

  lemma {:induction false} NoParts(names: seq<string>, parts: seq<Option<int>>)
    requires |names| == |parts| && forall i :: 0 <= i < |parts| ==> !Written(parts[i])
    ensures PartKeys(names, parts) == [] && PartItems(names, parts) == []
  {
    if names != [] {
      NoParts(names[1..], parts[1..]);
    }
  }

  function EncodeAll(items: seq<Value>): (r: seq<Json>)
    ensures |r| == |items|
    decreases items, 0
  {
    if items == [] then [] else [Encode(items[0])] + EncodeAll(items[1..])
  }

  /** The parts of a relativedelta: each one only when it is present and not zero. */
  function EncodeParts(amounts: seq<string>, fields: seq<string>, relative: seq<int>, absolute: seq<Option<int>>): Json
  {
    var names, parts := amounts + fields, AllParts(relative, absolute);
    JDict(Plains(PartKeys(names, parts)), PartItems(names, parts))
  }

  function AllParts(relative: seq<int>, absolute: seq<Option<int>>): seq<Option<int>>
  {
    seq(|relative|, i requires 0 <= i < |relative| => Some(relative[i])) + absolute
  }

  predicate Written(part: Option<int>)
  {
    part.Some? && part.value != 0
  }

  function PartKeys(names: seq<string>, parts: seq<Option<int>>): seq<string>
  {
    if names == [] || parts == [] then []
    else (if Written(parts[0]) then [names[0]] else []) + PartKeys(names[1..], parts[1..])
  }

  function PartItems(names: seq<string>, parts: seq<Option<int>>): seq<Json>
  {
    if names == [] || parts == [] then []
    else (if Written(parts[0]) then [JInt(parts[0].value)] else []) + PartItems(names[1..], parts[1..])
  }

  // ---- Decoding --------------------------------------------------------------------------------

  function Get<T>(keys: seq<Key>, items: seq<T>, name: string): (r: Option<T>)
    ensures r.Some? ==> r.value in items
  {
    if keys == [] || items == [] then None
    else if IsNamed(keys[0], name) then Some(items[0])
    else Get(keys[1..], items[1..], name)
  }

  function Lookup<T>(names: seq<string>, items: seq<T>, name: string): (r: Option<T>)
    ensures r.Some? ==> r.value in items
  {
    if names == [] || items == [] then None
    else if names[0] == name then Some(items[0])
    else Lookup(names[1..], items[1..], name)
  }

  /** None stands for a raised exception. */
  function Decode(d: Decoder, j: Json): Option<Value>
    decreases j, 2
  {
    match j
    case JDict(keys, items) =>
      (match Get<Json>(keys, items, "__type__")
       case None =>
         var values := DecodeAll(d, items);
         if values.None? then None else Some(Dict(keys, values.value))
       case Some(JStr(name)) => DecodeTagged(d, j, name)
       case Some(JList(_)) => None
       case Some(JDict(_, _)) => None
       case Some(_) => Some(Raw(j)))
    case JList(items) =>
      var values := DecodeAll(d, items);
      if values.None? then None else Some(List(values.value))
    case _ => Some(Raw(j))
  }

  // An object whose __type__ is the string name.
  function DecodeTagged(d: Decoder, j: Json, name: string): Option<Value>
    requires j.JDict?
    decreases j, 1
  {
    var data: Option<Json>, value: Option<Json> := Get(j.keys, j.items, "__data__"), Get(j.keys, j.items, "__value__");
    if name == "datetime" then
      match value
      case Some(JStr(text)) => (match d.parseIso(text) case Some(iso) => Some(DateTime(iso)) case None => None)
      case _ => None
    else if name == "timedelta" then
      match Get<Json>(j.keys, j.items, "__total_seconds__")
      case Some(JFloat(x)) => Some(TimeDelta((x * 1000000.0 + 0.5).Floor))
      case Some(JInt(i)) => Some(TimeDelta(i * 1000000))
      case _ => None
    else if name == "relativedelta" then
      match data
      case Some(JDict(keys, items)) =>
        (match NamesOf(keys)
         case Some(names) => ReadParts(RELATIVE, ABSOLUTE, names, items)
         case None => None)
      case _ => None
    else if name == "tuple" then
      match data
      case Some(JList(items)) =>
        var values := DecodeAll(d, items);
        if values.None? then None else Some(Tuple(values.value))
      case Some(JDict(keys, _)) => Some(Tuple(seq(|keys|, i requires 0 <= i < |keys| => KeyValue(keys[i]))))
      case Some(JStr(s)) => Some(Tuple(seq(|s|, i requires 0 <= i < |s| => Str([s[i]]))))
      case _ => None
    else if name in d.registry then
      match d.registry[name]
      case EnumClass(home, values) =>
        (match value
         case Some(JStr(v)) => if v in values then Some(Enum(name, home, v)) else None
         case _ => None)
      case TupleClass(home, fields) =>
        (match data
         case Some(JDict(keys, items)) =>
           var values, names := DecodeAll(d, items), NamesOf(keys);
           if values.None? || names.None? then None
           else
             var arguments := Arguments(fields, names.value, values.value);
             if arguments.None? then None else Some(Named(name, home, fields, arguments.value))
         case _ => None)
    else Some(Raw(j))
  }

  function KeyValue(key: Key): Value
  {
    match key
    case Plain(s) => Str(s)
    case Number(i) => Int(i)
    case Member(cls, home, value) => Enum(cls, home, value)
  }

  function DecodeAll(d: Decoder, items: seq<Json>): Option<seq<Value>>
    decreases items, 0
  {
    if items == [] then Some([])
    else
      var first, rest := Decode(d, items[0]), DecodeAll(d, items[1..]);
      if first.None? || rest.None? then None else Some([first.value] + rest.value)
  }

  // Calling a class with keyword arguments: exactly its fields, in any order.
  function Arguments(fields: seq<string>, keys: seq<string>, values: seq<Value>): Option<seq<Value>>
  {
    if (forall key :: key in keys ==> key in fields) then InOrder(fields, keys, values) else None
  }

  function InOrder(fields: seq<string>, keys: seq<string>, values: seq<Value>): Option<seq<Value>>
  {
    if fields == [] then Some([])
    else
      var first, rest := Lookup(keys, values, fields[0]), InOrder(fields[1..], keys, values);
      if first.None? || rest.None? then None else Some([first.value] + rest.value)
  }

  // Keyword arguments for the relative amounts and the absolute fields, all integers.
  function ReadParts(amounts: seq<string>, fields: seq<string>, keys: seq<string>, items: seq<Json>): Option<Value>
  {
    if (forall key :: key in keys ==> key in amounts + fields) && (forall i :: 0 <= i < |items| ==> items[i].JInt?)
    then
      Some(RelativeDelta(seq(|amounts|, i requires 0 <= i < |amounts| => AmountOf(PartOf(keys, items, amounts[i]))),
                         seq(|fields|, i requires 0 <= i < |fields| => PartOf(keys, items, fields[i]))))
    else None
  }

  function PartOf(keys: seq<string>, items: seq<Json>, name: string): Option<int>
  {
    match Lookup<Json>(keys, items, name)
    case Some(JInt(v)) => Some(v)
    case _ => None
  }

  function AmountOf(part: Option<int>): int
  {
    match part
    case Some(v) => v
    case None => 0
  }

  // Plain JSON data kept as it is.
  function Raw(j: Json): Value
    decreases j, 1
  {
    match j
    case JNull => Null
    case JBool(b) => Bool(b)
    case JInt(i) => Int(i)
    case JFloat(x) => Float(x)
    case JStr(s) => Str(s)
    case JList(items) => List(RawAll(items))
    case JDict(keys, items) => Dict(keys, RawAll(items))
  }

  function RawAll(items: seq<Json>): seq<Value>
    decreases items, 0
  {
    if items == [] then [] else [Raw(items[0])] + RawAll(items[1..])
  }

  // ---- The round trip ----------------------------------------------------------------------------

  predicate BuiltIn(name: string)
  {
    name == "datetime" || name == "timedelta" || name == "relativedelta" || name == "tuple"
  }

  predicate DistinctKeys(keys: seq<Key>)
  {
    forall i, j :: 0 <= i < j < |keys| ==> !SameKey(keys[i], keys[j])
  }

  predicate HasKey(keys: seq<Key>, name: string)
  {
    exists i :: 0 <= i < |keys| && IsNamed(keys[i], name)
  }

  /** Values made of registered classes, canonical datetimes, relativedeltas without an
      absolute field that is zero, tuples, lists, scalars, and dictionaries without the
      type tag as a key. */
  predicate Supported(d: Decoder, v: Value)
    decreases v, 1
  {
    match v
    case Named(cls, home, keys, items) =>
      !BuiltIn(cls) && cls in d.registry && d.registry[cls] == TupleClass(home, keys)
      && |keys| == |items| && NoDuplicates(keys) && AllSupported(d, items)
    case Enum(cls, home, value) =>
      !BuiltIn(cls) && cls in d.registry && d.registry[cls].EnumClass? && d.registry[cls].home == home
      && value in d.registry[cls].values
    case DateTime(iso) => d.parseIso(iso) == Some(iso)
    case RelativeDelta(relative, absolute) =>
      |relative| == |RELATIVE| && |absolute| == |ABSOLUTE|
      && forall i :: 0 <= i < |absolute| ==> absolute[i] != Some(0)
    case Dict(keys, items) =>
      |keys| == |items| && DistinctKeys(keys) && !HasKey(keys, "__type__") && AllSupported(d, items)
    case Tuple(items) => AllSupported(d, items)
    case List(items) => AllSupported(d, items)
    case _ => true
  }

  predicate AllSupported(d: Decoder, items: seq<Value>)
    decreases items, 0
  {
    items != [] ==> Supported(d, items[0]) && AllSupported(d, items[1..])
  }

  lemma {:induction false} LookupAbsent<T>(keys: seq<string>, items: seq<T>, key: string)
    requires key !in keys
    ensures Lookup(keys, items, key) == None
    decreases keys
  {
    if keys != [] && items != [] {
      LookupAbsent(keys[1..], items[1..], key);
    }
  }

  lemma {:induction false} LookupAt<T>(keys: seq<string>, items: seq<T>, i: nat)
    requires NoDuplicates(keys) && i < |keys| == |items|
    ensures Lookup(keys, items, keys[i]) == Some(items[i])
    decreases keys
  {
    if i > 0 {
      assert keys[0] != keys[i];
      LookupAt(keys[1..], items[1..], i - 1);
    }
  }

  // Reading the keys from position i on gives back the items from position i on.
  lemma {:induction false} InOrderReads(keys: seq<string>, values: seq<Value>, i: nat)
    requires NoDuplicates(keys) && i <= |keys| == |values|
    ensures InOrder(keys[i..], keys, values) == Some(values[i..])
    decreases |keys| - i
  {
    if i < |keys| {
      InOrderReads(keys, values, i + 1);
      LookupAt(keys, values, i);
      assert keys[i..][0] == keys[i] && keys[i..][1..] == keys[i + 1..];
      assert values[i..] == [values[i]] + values[i + 1..];
    } else {
      assert keys[i..] == [] && values[i..] == [];
    }
  }

  lemma {:induction false} PartsRead(names: seq<string>, parts: seq<Option<int>>)
    requires NoDuplicates(names) && |names| == |parts|
    ensures var keys, items := PartKeys(names, parts), PartItems(names, parts);
            && |keys| == |items|
            && (forall key :: key in keys ==> key in names)
            && (forall i :: 0 <= i < |items| ==> items[i].JInt?)
            && (forall i :: 0 <= i < |names| ==>
                  PartOf(keys, items, names[i]) == if Written(parts[i]) then parts[i] else None)
    decreases names
  {
    if names != [] {
      PartsRead(names[1..], parts[1..]);
      var keys, items := PartKeys(names[1..], parts[1..]), PartItems(names[1..], parts[1..]);
      assert names[0] !in names[1..];
      LookupAbsent(keys, items, names[0]);
      forall i | 1 <= i < |names| ensures names[i] == names[1..][i - 1] && names[i] != names[0] {}
      if Written(parts[0]) {
        LookupTail(names[0], JInt(parts[0].value), keys, items);
      } else {
        assert [] + keys == keys && [] + items == items;
      }
    }
  }

  lemma LookupTail<T>(first: string, item: T, keys: seq<string>, items: seq<T>)
    ensures Lookup([first] + keys, [item] + items, first) == Some(item)
    ensures forall key :: key != first ==> Lookup([first] + keys, [item] + items, key) == Lookup(keys, items, key)
  {
    assert ([first] + keys)[1..] == keys && ([item] + items)[1..] == items;
  }

  lemma PartNamesDistinct()
    ensures NoDuplicates(RELATIVE + ABSOLUTE)
  {
  }

  lemma {:induction false} GetPlain<T>(names: seq<string>, items: seq<T>, name: string)
    ensures Get(Plains(names), items, name) == Lookup(names, items, name)
    decreases names
  {
    if names != [] && items != [] {
      assert Plains(names)[1..] == Plains(names[1..]);
      GetPlain(names[1..], items[1..], name);
    }
  }

  lemma {:induction false} NamesOfPlains(names: seq<string>)
    ensures NamesOf(Plains(names)) == Some(names)
  {
    if names != [] {
      assert Plains(names)[1..] == Plains(names[1..]);
      NamesOfPlains(names[1..]);
      assert names == [names[0]] + names[1..];
    }
  }

  lemma {:induction false} GetAbsent<T>(keys: seq<Key>, items: seq<T>, name: string)
    requires !HasKey(keys, name)
    ensures Get(keys, items, name) == None
    decreases keys
  {
    if keys != [] && items != [] {
      assert !IsNamed(keys[0], name);
      assert forall i :: 0 <= i < |keys| - 1 ==> keys[1..][i] == keys[i + 1];
      GetAbsent(keys[1..], items[1..], name);
    }
  }

  // Reading an object with a type tag and a module.
  lemma TaggedClass(tag: Json, home: Json, key: string, item: Json)
    requires key != "__type__" && key != "__module__"
    ensures Get(Plains(["__type__", "__module__", key]), [tag, home, item], "__type__") == Some(tag)
    ensures Get(Plains(["__type__", "__module__", key]), [tag, home, item], key) == Some(item)
  {
    var names, items := ["__type__", "__module__", key], [tag, home, item];
    GetPlain(names, items, "__type__");
    GetPlain(names, items, key);
    assert names[1..] == ["__module__", key] && items[1..] == [home, item];
    assert ["__module__", key][1..] == [key] && [home, item][1..] == [item];
    assert Lookup(["__module__", key], [home, item], key) == Lookup([key], [item], key);
  }

  // An absolute field that is zero is not written, so it is read as absent.
  function DropZeros(absolute: seq<Option<int>>): (r: seq<Option<int>>)
    ensures |r| == |absolute|
    ensures forall i :: 0 <= i < |r| ==> r[i] == if absolute[i] == Some(0) then None else absolute[i]
  {
    seq(|absolute|, i requires 0 <= i < |absolute| => if absolute[i] == Some(0) then None else absolute[i])
  }

  lemma PartsDecoded(amounts: seq<string>, fields: seq<string>, relative: seq<int>, absolute: seq<Option<int>>)
    requires |relative| == |amounts| && |absolute| == |fields| && NoDuplicates(amounts + fields)
    ensures var j := EncodeParts(amounts, fields, relative, absolute);
            && NamesOf(j.keys).Some?
            && ReadParts(amounts, fields, NamesOf(j.keys).value, j.items)
                == Some(RelativeDelta(relative, DropZeros(absolute)))
  {
    var names, parts := amounts + fields, AllParts(relative, absolute);
    var keys, items := PartKeys(names, parts), PartItems(names, parts);
    PartsRead(names, parts);
    NamesOfPlains(keys);
    hide PartKeys, PartItems, PartOf;
    forall i | 0 <= i < |amounts| ensures AmountOf(PartOf(keys, items, amounts[i])) == relative[i] {
      assert names[i] == amounts[i] && parts[i] == Some(relative[i]);
    }
    forall i | 0 <= i < |fields| ensures PartOf(keys, items, fields[i]) == DropZeros(absolute)[i] {
      assert names[|amounts| + i] == fields[i] && parts[|amounts| + i] == absolute[i];
    }
    var r := ReadParts(amounts, fields, keys, items);
    assert r.Some? && r.value.relative == relative && r.value.absolute == DropZeros(absolute);
  }

  // Reading a two-entry object with a type tag.
  lemma Tagged(tag: Json, key: string, item: Json)
    requires key != "__type__"
    ensures Get(Plains(["__type__", key]), [tag, item], "__type__") == Some(tag)
    ensures Get(Plains(["__type__", key]), [tag, item], key) == Some(item)
  {
    GetPlain(["__type__", key], [tag, item], "__type__");
    GetPlain(["__type__", key], [tag, item], key);
    assert ["__type__", key][1..] == [key] && [tag, item][1..] == [item];
  }

  /** A relativedelta survives the round trip exactly when no absolute field is zero; the
      zero fields, say an hour set to midnight, come back as absent. */
  lemma RelativeDeltaExactly(d: Decoder, relative: seq<int>, absolute: seq<Option<int>>)
    requires |relative| == |RELATIVE| && |absolute| == |ABSOLUTE|
    ensures Decode(d, Encode(RelativeDelta(relative, absolute))) == Some(RelativeDelta(relative, DropZeros(absolute)))
    ensures Decode(d, Encode(RelativeDelta(relative, absolute))) == Some(RelativeDelta(relative, absolute))
            <==> forall i :: 0 <= i < |absolute| ==> absolute[i] != Some(0)
  {
    PartNamesDistinct();
    PartsDecoded(RELATIVE, ABSOLUTE, relative, absolute);
    Tagged(JStr("relativedelta"), "__data__", EncodeParts(RELATIVE, ABSOLUTE, relative, absolute));
    hide ReadParts, NamesOf, Plains, EncodeParts, Get;
    assert DropZeros(absolute) == absolute <==> forall i :: 0 <= i < |absolute| ==> absolute[i] != Some(0);
  }

  // Reading an object tagged with a registered class.
  lemma DecodedByTag(d: Decoder, j: Json, name: string)
    requires j.JDict? && Get(j.keys, j.items, "__type__") == Some(JStr(name))
    ensures Decode(d, j) == DecodeTagged(d, j, name)
  {
    hide Get, DecodeTagged;
  }

  lemma ClassDecoded(d: Decoder, j: Json, name: string, keys: seq<Key>, items: seq<Json>, values: seq<Value>)
    requires j.JDict? && Get(j.keys, j.items, "__type__") == Some(JStr(name))
    requires Get(j.keys, j.items, "__data__") == Some(JDict(keys, items))
    requires !BuiltIn(name) && name in d.registry && d.registry[name].TupleClass?
    requires var fields := d.registry[name].fields;
             NamesOf(keys) == Some(fields) && NoDuplicates(fields) && |fields| == |values|
    requires DecodeAll(d, items) == Some(values)
    ensures Decode(d, j) == Some(Named(name, d.registry[name].home, d.registry[name].fields, values))
  {
    var fields := d.registry[name].fields;
    InOrderReads(fields, values, 0);
    assert fields[0..] == fields && values[0..] == values;
    DecodedByTag(d, j, name);
    hide Decode, Get, DecodeAll, InOrder, NamesOf, Plains;
  }

  lemma NamedDecoded(d: Decoder, v: Value)
    requires v.Named? && Supported(d, v) && DecodeAll(d, EncodeAll(v.items)) == Some(v.items)
    ensures Decode(d, Encode(v)) == Some(v)
  {
    TaggedClass(JStr(v.cls), JStr(v.home), "__data__", JDict(Plains(v.fields), EncodeAll(v.items)));
    NamesOfPlains(v.fields);
    hide Decode, Get, EncodeAll, DecodeAll, InOrder, NamesOf, Plains, BuiltIn, AllSupported;
    ClassDecoded(d, Encode(v), v.cls, Plains(v.fields), EncodeAll(v.items), v.items);
  }

  lemma EnumDecoded(d: Decoder, v: Value)
    requires v.Enum? && Supported(d, v)
    ensures Decode(d, Encode(v)) == Some(v)
  {
    TaggedClass(JStr(v.cls), JStr(v.home), "__value__", JStr(v.value));
    hide Get;
  }

  lemma TupleObjectDecoded(d: Decoder, items: seq<Json>, values: seq<Value>)
    requires DecodeAll(d, items) == Some(values)
    ensures Decode(d, JDict(Plains(["__type__", "__data__"]), [JStr("tuple"), JList(items)])) == Some(Tuple(values))
  {
    Tagged(JStr("tuple"), "__data__", JList(items));
    hide Get, DecodeAll, Plains;
  }

  lemma TupleDecoded(d: Decoder, items: seq<Value>)
    requires DecodeAll(d, EncodeAll(items)) == Some(items)
    ensures Decode(d, Encode(Tuple(items))) == Some(Tuple(items))
  {
    TupleObjectDecoded(d, EncodeAll(items), items);
    hide Decode, EncodeAll, DecodeAll, Plains;
  }

  lemma ContainerDecoded(d: Decoder, v: Value)
    requires (v.Dict? || v.List?) && Supported(d, v) && DecodeAll(d, EncodeAll(v.items)) == Some(v.items)
    ensures Decode(d, Encode(v)) == Some(v)
  {
    if v.Dict? {
      GetAbsent(v.keys, EncodeAll(v.items), "__type__");
    }
    hide Get, EncodeAll, DecodeAll, DecodeTagged, DistinctKeys;
  }

  lemma TimesDecoded(d: Decoder, v: Value)
    requires (v.DateTime? || v.TimeDelta?) && Supported(d, v)
    ensures Decode(d, Encode(v)) == Some(v)
  {
    if v.DateTime? {
      Tagged(JStr("datetime"), "__value__", JStr(v.iso));
      DecodedByTag(d, Encode(v), "datetime");
    } else {
      Tagged(JStr("timedelta"), "__total_seconds__", JFloat(v.microseconds as real / 1000000.0));
      DecodedByTag(d, Encode(v), "timedelta");
    }
    hide Decode, Get, Plains;
  }

  lemma ScalarDecoded(d: Decoder, v: Value)
    requires v.Null? || v.Bool? || v.Int? || v.Float? || v.Str?
    ensures Decode(d, Encode(v)) == Some(v)
  {
  }

  /** Decoding inverts encoding on every supported value. */
  lemma {:induction false} DecodeInvertsEncode(d: Decoder, v: Value)
    requires Supported(d, v)
    ensures Decode(d, Encode(v)) == Some(v)
    decreases v, 1
  {
    hide Decode, Encode;
    match v
    case Named(_, _, _, items) => AllDecoded(d, items); NamedDecoded(d, v);
    case Enum(_, _, _) => EnumDecoded(d, v);
    case Dict(_, items) => AllDecoded(d, items); ContainerDecoded(d, v);
    case Tuple(items) => AllDecoded(d, items); TupleDecoded(d, items);
    case List(items) => AllDecoded(d, items); ContainerDecoded(d, v);
    case RelativeDelta(relative, absolute) => RelativeDeltaExactly(d, relative, absolute);
    case DateTime(_) => TimesDecoded(d, v);
    case TimeDelta(_) => TimesDecoded(d, v);
    case _ => ScalarDecoded(d, v);
  }

  lemma {:induction false} AllDecoded(d: Decoder, items: seq<Value>)
    requires AllSupported(d, items)
    ensures DecodeAll(d, EncodeAll(items)) == Some(items)
    decreases items, 0
  {
    hide Decode, Encode, Supported;
    if items == [] {
    } else {
      DecodeInvertsEncode(d, items[0]);
      AllDecoded(d, items[1..]);
      assert EncodeAll(items)[0] == Encode(items[0]) && EncodeAll(items)[1..] == EncodeAll(items[1..]);
      assert items == [items[0]] + items[1..];
    }
  }

  /** On supported values the encoding is injective. */
  lemma EncodingIsInjective(d: Decoder, v: Value, w: Value)
    requires Supported(d, v) && Supported(d, w) && Encode(v) == Encode(w)
    ensures v == w
  {
    hide Encode, Decode, Supported;
    DecodeInvertsEncode(d, v);
    DecodeInvertsEncode(d, w);
  }

  /** Why dictionaries with the type tag as a key are left out: this one comes back as a tuple. */
  lemma TaggedDictionaryIsMisread(d: Decoder)
    ensures var v := Dict(Plains(["__type__", "__data__"]), [Str("tuple"), List([])]);
            Decode(d, Encode(v)) == Some(Tuple([])) && Tuple([]) != v
  {
  }

  // ---- Data that no encoder wrote ---------------------------------------------------------------------

  /** Plain data is read as it stands: encoding it again gives the same data. */
  lemma {:induction false} RawIsKept(j: Json)
    ensures Encode(Raw(j)) == j
    decreases j, 1
  {
    match j
    case JList(items) => RawAllIsKept(items);
    case JDict(_, items) => RawAllIsKept(items);
    case _ =>
  }

  lemma {:induction false} RawAllIsKept(items: seq<Json>)
    ensures EncodeAll(RawAll(items)) == items
    decreases items, 0
  {
    hide Encode, Raw;
    if items != [] {
      RawIsKept(items[0]);
      RawAllIsKept(items[1..]);
      assert RawAll(items)[1..] == RawAll(items[1..]);
    }
  }

  /** Of tagged data, that of an unknown class is read as plain data, an enum value that the class
      does not have raises, and a text as the data of a tuple is taken apart into its characters. */
  lemma OddDataIsRead(d: Decoder, name: string, value: string)
    ensures !BuiltIn(name) && name !in d.registry ==>
      var j := JDict(Plains(["__type__", "__value__"]), [JStr(name), JStr(value)]);
      Decode(d, j) == Some(Raw(j))
    ensures !BuiltIn(name) && name in d.registry && d.registry[name].EnumClass? && value !in d.registry[name].values ==>
      Decode(d, JDict(Plains(["__type__", "__value__"]), [JStr(name), JStr(value)])) == None
    ensures exists r ::
              Decode(d, JDict(Plains(["__type__", "__data__"]), [JStr("tuple"), JStr(value)])) == Some(Tuple(r))
              && |r| == |value| && forall i :: 0 <= i < |value| ==> r[i] == Str([value[i]])
  {
    Tagged(JStr(name), "__value__", JStr(value));
    Tagged(JStr("tuple"), "__data__", JStr(value));
    DecodedByTag(d, JDict(Plains(["__type__", "__value__"]), [JStr(name), JStr(value)]), name);
    DecodedByTag(d, JDict(Plains(["__type__", "__data__"]), [JStr("tuple"), JStr(value)]), "tuple");
    hide Decode, Get, Plains, Raw;
    var r := seq(|value|, i requires 0 <= i < |value| => Str([value[i]]));
    assert Decode(d, JDict(Plains(["__type__", "__data__"]), [JStr("tuple"), JStr(value)])) == Some(Tuple(r));
  }
}
