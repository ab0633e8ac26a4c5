/** Durations as text, character by character: "timedelta(days=-1, seconds=5)" and the
    parser of such attribute lists. */
module AttributeText {
  import opened Options
  import Logins

  // ---- Integers as text ----------------------------------------------------------------------

  predicate IsDigit(c: char)
  {
    '0' <= c <= '9'
  }

  predicate AllDigits(s: string)
  {
    s != "" && forall i :: 0 <= i < |s| ==> IsDigit(s[i])
  }

  function NatText(n: nat): (s: string)
    ensures AllDigits(s)
  {
    var last := [(n % 10 + '0' as int) as char];
    if n < 10 then last else NatText(n / 10) + last
  }

  function IntText(n: int): string
  {
    if n < 0 then "-" + NatText(-n) else NatText(n)
  }

  function ReadNat(s: string): (n: nat)
    requires AllDigits(s)
  {
    var digit := s[|s| - 1] as int - '0' as int;
    if |s| == 1 then digit else ReadNat(s[..|s| - 1]) * 10 + digit
  }

  // Digits, with single underscores between them.
  predicate IsNumeral(s: string)
  {
    && s != "" && IsDigit(s[|s| - 1])
    && if |s| == 1 then true
       else if s[|s| - 2] == '_' then IsNumeral(s[..|s| - 2])
       else IsNumeral(s[..|s| - 1])
  }

  /** A numeral consists of digits and underscores; it begins and ends with a digit, and no two
      underscores stand together. */
  lemma {:induction false} NumeralExactly(s: string)
    ensures IsNumeral(s) <==>
      && s != "" && IsDigit(s[0]) && IsDigit(s[|s| - 1])
      && (forall i :: 0 <= i < |s| ==> IsDigit(s[i]) || s[i] == '_')
      && (forall i :: 0 <= i < |s| - 1 ==> IsDigit(s[i]) || IsDigit(s[i + 1]))
  {
    if |s| > 1 && IsDigit(s[|s| - 1]) {
      if s[|s| - 2] == '_' {
        NumeralExactly(s[..|s| - 2]);
      } else {
        NumeralExactly(s[..|s| - 1]);
      }
    }
  }

  function ReadNumeral(s: string): (n: nat)
    requires IsNumeral(s)
  {
    var digit := s[|s| - 1] as int - '0' as int;
    if |s| == 1 then digit
    else if s[|s| - 2] == '_' then ReadNumeral(s[..|s| - 2]) * 10 + digit
    else ReadNumeral(s[..|s| - 1]) * 10 + digit
  }

  // An optional sign and a numeral, white space around them; anything else raises, which is None.
  function ReadInt(s: string): Option<int>
  {
    var bare := Logins.StripRight(Logins.StripLeft(s));
    if IsNumeral(bare) then Some(ReadNumeral(bare))
    else if bare != "" && bare[0] == '+' && IsNumeral(bare[1..]) then Some(ReadNumeral(bare[1..]))
    else if bare != "" && bare[0] == '-' && IsNumeral(bare[1..]) then Some(0 - ReadNumeral(bare[1..]))
    else None
  }

  // ---- Splitting ---------------------------------------------------------------------------------

  // str.split(", ")
  function SplitComma(s: string): (parts: seq<string>)
    ensures |parts| >= 1
  {
    if |s| < 2 then [s]
    else if s[0] == ',' && s[1] == ' ' then [""] + SplitComma(s[2..])
    else
      var rest := SplitComma(s[1..]);
      [[s[0]] + rest[0]] + rest[1..]
  }

  // str.split("=")
  function SplitEquals(s: string): (parts: seq<string>)
    ensures |parts| >= 1
  {
    if s == "" then [""]
    else
      var rest := SplitEquals(s[1..]);
      if s[0] == '=' then [""] + rest else [[s[0]] + rest[0]] + rest[1..]
  }

  function NonEmpty(parts: seq<string>): seq<string>
  {
    if parts == [] then []
    else (if parts[0] != "" then [parts[0]] else []) + NonEmpty(parts[1..])
  }

  // ---- The attribute parser -------------------------------------------------------------------------

  datatype Parsed = WrongFormat | Raised | Attributes(attrs: map<string, int>)

  // Reading the parts in order; a repeated name overwrites.
  function ReadParts(parts: seq<string>, attrs: map<string, int>): Parsed
    decreases parts
  {
    if parts == [] then Attributes(attrs)
    else
      var sides := SplitEquals(parts[0]);
      if |sides| != 2 || ReadInt(sides[1]).None? then Raised
      else ReadParts(parts[1..], attrs[sides[0] := ReadInt(sides[1]).value])
  }

  function Body(value: string, name: string): Option<string>
  {
    var open := name + "(";
    if |open| < |value| && value[..|open|] == open && value[|value| - 1] == ')'
    then Some(value[|open|..|value| - 1])
    else None
  }

  function ParseAttributes(value: string, name: string): Parsed
  {
    match Body(value, name)
    case None => WrongFormat
    case Some(inner) => ReadParts(NonEmpty(SplitComma(inner)), map[])
  }

  lemma FormatExactly(value: string, name: string)
    ensures ParseAttributes(value, name) == WrongFormat <==> !(exists inner :: value == name + "(" + inner + ")")
    ensures forall inner :: value == name + "(" + inner + ")" ==> Body(value, name) == Some(inner)
  {
    var open := name + "(";
    if Body(value, name).Some? {
      var inner := Body(value, name).value;
      assert value == open + inner + ")";
    }
    forall inner | value == name + "(" + inner + ")"
      ensures Body(value, name) == Some(inner)
    {
      assert value[..|open|] == open && value[|open|..|value| - 1] == inner;
    }
    ReadPartsIsNoFormatError(NonEmpty(SplitComma(if Body(value, name).Some? then Body(value, name).value else "")),
        map[]);
  }

  lemma {:induction false} ReadPartsIsNoFormatError(parts: seq<string>, attrs: map<string, int>)
    ensures ReadParts(parts, attrs) != WrongFormat
    decreases parts
  {
    if parts != [] {
      var sides := SplitEquals(parts[0]);
      if |sides| == 2 && ReadInt(sides[1]).Some? {
        ReadPartsIsNoFormatError(parts[1..], attrs[sides[0] := ReadInt(sides[1]).value]);
      }
    }
  }

  /** The parsing loop shared by both duration formats. */
  method TryParse(value: string, name: string) returns (r: Parsed)
    ensures r == ParseAttributes(value, name)
    ensures r == WrongFormat <==> !(exists inner :: value == name + "(" + inner + ")")
  {
    FormatExactly(value, name);
    var inner := Body(value, name);
    if inner.None? {
      return WrongFormat;
    }
    var parts := NonEmpty(SplitComma(inner.value));
    var attrs: map<string, int> := map[];
    for i := 0 to |parts|
      invariant ReadParts(parts, map[]) == ReadParts(parts[i..], attrs)
    {
      assert parts[i..][0] == parts[i] && parts[i..][1..] == parts[i + 1..];
      var sides := SplitEquals(parts[i]);
      if |sides| != 2 {
        return Raised;
      }
      var number := ReadInt(sides[1]);
      if number.None? {
        return Raised;
      }
      attrs := attrs[sides[0] := number.value];
    }
    return Attributes(attrs);
  }

  // ---- Durations ------------------------------------------------------------------------------------

  const SECOND := 1_000_000
  const DAY := 86_400 * SECOND

  function AttributeOr0(attrs: map<string, int>, name: string): int
  {
    if name in attrs then attrs[name] else 0
  }

  // timedelta(**attrs), in microseconds; an unknown keyword raises.
  function DurationOf(attrs: map<string, int>): Option<int>
  {
    if attrs.Keys <= {"weeks", "days", "hours", "minutes", "seconds", "milliseconds", "microseconds"} then
      Some(AttributeOr0(attrs, "weeks") * 7 * DAY + AttributeOr0(attrs, "days") * DAY
           + AttributeOr0(attrs, "hours") * 3600 * SECOND + AttributeOr0(attrs, "minutes") * 60 * SECOND
           + AttributeOr0(attrs, "seconds") * SECOND + AttributeOr0(attrs, "milliseconds") * 1000
           + AttributeOr0(attrs, "microseconds"))
    else None
  }

  /** What one of each unit is worth, in microseconds; with any other name the call raises. */
  lemma UnitLengths(name: string, n: int)
    ensures DurationOf(map[name := n])
         == if name == "weeks" then Some(604_800_000_000 * n)
            else if name == "days" then Some(86_400_000_000 * n)
            else if name == "hours" then Some(3_600_000_000 * n)
            else if name == "minutes" then Some(60_000_000 * n)
            else if name == "seconds" then Some(1_000_000 * n)
            else if name == "milliseconds" then Some(1_000 * n)
            else if name == "microseconds" then Some(n)
            else None
  {
    assert name in map[name := n];
  }

  function ParseDuration(value: string): Option<int>
  {
    match ParseAttributes(value, "timedelta")
    case Attributes(attrs) => DurationOf(attrs)
    case _ => None
  }

  /** Days and seconds of a duration in microseconds; the days are floored. */
  function DurationText(duration: int): string
  {
    "timedelta(days=" + IntText(duration / DAY) + ", seconds=" + IntText(duration % DAY / SECOND) + ")"
  }

  // ---- Printing attribute lists ------------------------------------------------------------------------

  /** An attribute as printed, the value with an explicit plus sign or without. */
  datatype Item = Item(name: string, value: int, plus: bool)

  function SignedText(item: Item): string
  {
    (if item.plus && item.value >= 0 then "+" else "") + IntText(item.value)
  }

  function ItemText(item: Item): string
  {
    item.name + "=" + SignedText(item)
  }

  function Join(items: seq<Item>): string
  {
    if items == [] then ""
    else if |items| == 1 then ItemText(items[0])
    else ItemText(items[0]) + ", " + Join(items[1..])
  }

  function Texts(items: seq<Item>): (texts: seq<string>)
    ensures |texts| == |items|
  {
    if items == [] then [] else [ItemText(items[0])] + Texts(items[1..])
  }

  function Collect(items: seq<Item>, attrs: map<string, int>): map<string, int>
    decreases items
  {
    if items == [] then attrs else Collect(items[1..], attrs[items[0].name := items[0].value])
  }

  predicate Without(s: string, c: char)
  {
    forall i :: 0 <= i < |s| ==> s[i] != c
  }

  predicate PlainNames(items: seq<Item>)
  {
    forall i :: 0 <= i < |items| ==> Without(items[i].name, ',') && Without(items[i].name, '=')
  }

  // ---- Reading back what was printed ---------------------------------------------------------------------

  lemma {:induction false} ReadNatText(n: nat)
    ensures ReadNat(NatText(n)) == n
  {
    if n >= 10 {
      ReadNatText(n / 10);
      var s := NatText(n);
      assert s[..|s| - 1] == NatText(n / 10);
    }
  }

  lemma {:induction false} NumeralOfDigits(s: string)
    requires AllDigits(s)
    ensures IsNumeral(s) && ReadNumeral(s) == ReadNat(s)
  {
    if |s| > 1 {
      NumeralOfDigits(s[..|s| - 1]);
    }
  }

  lemma BareText(s: string)
    requires s != "" && !Logins.IsSpace(s[0]) && !Logins.IsSpace(s[|s| - 1])
    ensures Logins.StripRight(Logins.StripLeft(s)) == s
  {
  }

  lemma ReadUnsigned(n: nat)
    ensures ReadInt(NatText(n)) == Some(n)
  {
    ReadNatText(n);
    NumeralOfDigits(NatText(n));
    hide NatText, ReadNat, ReadNumeral, IsNumeral, Logins.StripLeft, Logins.StripRight;
    BareText(NatText(n));
  }

  lemma ReadSigned(sign: char, n: nat)
    requires sign == '+' || sign == '-'
    ensures ReadInt([sign] + NatText(n)) == Some(if sign == '-' then 0 - n else n)
  {
    var text := [sign] + NatText(n);
    ReadNatText(n);
    NumeralOfDigits(NatText(n));
    SignIsNoNumeral(text);
    hide NatText, ReadNat, ReadNumeral, IsNumeral, Logins.StripLeft, Logins.StripRight;
    assert text[1..] == NatText(n);
    BareText(text);
  }

  lemma {:induction false} SignIsNoNumeral(s: string)
    ensures s != "" && !IsDigit(s[0]) ==> !IsNumeral(s)
  {
    if |s| > 1 && IsNumeral(s) {
      if s[|s| - 2] == '_' {
        SignIsNoNumeral(s[..|s| - 2]);
      } else {
        SignIsNoNumeral(s[..|s| - 1]);
      }
    }
  }

  // The value of an item reads back, and contains neither separator.
  lemma ReadItemValue(item: Item)
    ensures ReadInt(SignedText(item)) == Some(item.value)
    ensures Without(SignedText(item), ',') && Without(SignedText(item), '=')
  {
    var n: nat := if item.value < 0 then -item.value else item.value;
    ReadUnsigned(n);
    ReadSigned('+', n);
    ReadSigned('-', n);
    hide ReadInt, NatText;
    var sign := if item.value < 0 then "-" else if item.plus then "+" else "";
    NoSeparators(sign, NatText(n));
    assert SignedText(item) == sign + NatText(n);
    assert sign == "" ==> sign + NatText(n) == NatText(n);
  }

  lemma NoSeparators(sign: string, digits: string)
    requires sign in ["", "+", "-"] && AllDigits(digits)
    ensures Without(sign + digits, ',') && Without(sign + digits, '=')
  {
  }

  lemma {:induction false} SplitEqualsPlain(s: string)
    requires Without(s, '=')
    ensures SplitEquals(s) == [s]
  {
    if s != "" {
      SplitEqualsPlain(s[1..]);
      assert [s[0]] + s[1..] == s;
    }
  }

  lemma {:induction false} SplitEqualsOnce(name: string, value: string)
    requires Without(name, '=') && Without(value, '=')
    ensures SplitEquals(name + "=" + value) == [name, value]
  {
    var s := name + "=" + value;
    if name == "" {
      assert s[1..] == value;
      SplitEqualsPlain(value);
    } else {
      assert s[1..] == name[1..] + "=" + value;
      SplitEqualsOnce(name[1..], value);
      assert [name[0]] + name[1..] == name;
    }
  }

  lemma {:induction false} SplitCommaPlain(s: string)
    requires Without(s, ',')
    ensures SplitComma(s) == [s]
  {
    if |s| >= 2 {
      SplitCommaPlain(s[1..]);
      assert [s[0]] + s[1..] == s;
    }
  }

  lemma {:induction false} SplitCommaHead(head: string, tail: string)
    requires Without(head, ',')
    ensures SplitComma(head + ", " + tail) == [head] + SplitComma(tail)
  {
    var s := head + ", " + tail;
    if head == "" {
      assert s[2..] == tail;
    } else {
      assert s[1..] == head[1..] + ", " + tail;
      SplitCommaHead(head[1..], tail);
      assert [head[0]] + head[1..] == head;
    }
  }

  lemma {:induction false} SplitJoin(items: seq<Item>)
    requires PlainNames(items)
    ensures NonEmpty(SplitComma(Join(items))) == Texts(items)
  {
    hide SignedText, ReadInt;
    if items != [] {
      ReadItemValue(items[0]);
      var text := ItemText(items[0]);
      assert Without(text, ',');
      if |items| == 1 {
        SplitCommaPlain(text);
      } else {
        SplitCommaHead(text, Join(items[1..]));
        SplitJoin(items[1..]);
        assert ([text] + SplitComma(Join(items[1..])))[1..] == SplitComma(Join(items[1..]));
      }
    }
  }

  lemma {:induction false} ReadTexts(items: seq<Item>, attrs: map<string, int>)
    requires PlainNames(items)
    ensures ReadParts(Texts(items), attrs) == Attributes(Collect(items, attrs))
    decreases items
  {
    hide SignedText, ReadInt;
    if items != [] {
      var item := items[0];
      ReadItemValue(item);
      SplitEqualsOnce(item.name, SignedText(item));
      ReadTexts(items[1..], attrs[item.name := item.value]);
      assert Texts(items)[1..] == Texts(items[1..]);
    }
  }

  /** A printed attribute list reads back as its names and values, the last one of a
      repeated name. */
  lemma ParseInvertsPrint(name: string, items: seq<Item>)
    requires PlainNames(items)
    ensures ParseAttributes(name + "(" + Join(items) + ")", name) == Attributes(Collect(items, map[]))
  {
    var value := name + "(" + Join(items) + ")";
    var open := name + "(";
    assert value == open + Join(items) + ")";
    assert value[..|open|] == open && value[|open|..|value| - 1] == Join(items);
    SplitJoin(items);
    ReadTexts(items, map[]);
  }

  lemma {:induction false} CollectDistinct(items: seq<Item>, attrs: map<string, int>)
    requires forall i, j :: 0 <= i < j < |items| ==> items[i].name != items[j].name
    ensures forall i :: 0 <= i < |items| ==>
      items[i].name in Collect(items, attrs) && Collect(items, attrs)[items[i].name] == items[i].value
    ensures forall n :: (forall i :: 0 <= i < |items| ==> items[i].name != n) ==>
      (n in Collect(items, attrs) <==> n in attrs) && (n in attrs ==> Collect(items, attrs)[n] == attrs[n])
    decreases items
  {
    if items != [] {
      CollectDistinct(items[1..], attrs[items[0].name := items[0].value]);
    }
  }

  lemma DaysAndSeconds(duration: int)
    ensures duration / DAY * DAY + duration % DAY / SECOND * SECOND == duration / SECOND * SECOND
  {
    var days, rest := duration / DAY, duration % DAY;
    assert duration == days * DAY + rest;
    assert duration / SECOND == days * 86_400 + rest / SECOND;
  }

  lemma OnlyDaysAndSeconds(days: int, seconds: int)
    ensures DurationOf(map["days" := days, "seconds" := seconds]) == Some(days * DAY + seconds * SECOND)
  {
    var attrs := map["days" := days, "seconds" := seconds];
    assert attrs.Keys == {"days", "seconds"};
  }

  function DaysThenSeconds(days: int, seconds: int): seq<Item>
  {
    [Item("days", days, false), Item("seconds", seconds, false)]
  }

  lemma TwoItems(days: int, seconds: int)
    ensures PlainNames(DaysThenSeconds(days, seconds))
    ensures Collect(DaysThenSeconds(days, seconds), map[]) == map["days" := days, "seconds" := seconds]
  {
    var items := DaysThenSeconds(days, seconds);
    assert items[1..] == [items[1]] && [items[1]][1..] == [];
    var first := map["days" := days];
    assert map[][items[0].name := items[0].value] == first;
    assert Collect([items[1]], first) == Collect([], first["seconds" := seconds]);
    assert first["seconds" := seconds] == map["days" := days, "seconds" := seconds];
  }

  lemma TwoItemsText(days: int, seconds: int)
    ensures "timedelta" + "(" + Join(DaysThenSeconds(days, seconds)) + ")"
            == "timedelta(days=" + IntText(days) + ", seconds=" + IntText(seconds) + ")"
  {
    hide IntText;
    var items := DaysThenSeconds(days, seconds);
    assert items[1..] == [items[1]];
    assert SignedText(items[0]) == IntText(days) && SignedText(items[1]) == IntText(seconds);
    hide SignedText;
    assert Join(items) == "days" + "=" + IntText(days) + ", " + ("seconds" + "=" + IntText(seconds));
    assert "timedelta" + "(" + ("days" + "=") == "timedelta(days=";
    assert ", " + ("seconds" + "=") == ", seconds=";
  }

  /** Printing and parsing a duration floors it to whole seconds, for negative durations
      too; so the round trip is exact exactly for whole seconds, and the assertion inside
      the printer never fails. */
  lemma DurationRoundTrip(duration: int)
    ensures ParseDuration(DurationText(duration)) == Some(duration / SECOND * SECOND)
    ensures ParseDuration(DurationText(duration)) == Some(duration) <==> duration % SECOND == 0
  {
    var days, seconds := duration / DAY, duration % DAY / SECOND;
    DaysAndSeconds(duration);
    ParsePrintedParts(days, seconds);
    assert duration / SECOND * SECOND == duration <==> duration % SECOND == 0;
    hide ParseDuration, IntText;
  }

  lemma ParsePrintedParts(days: int, seconds: int)
    ensures ParseDuration("timedelta(days=" + IntText(days) + ", seconds=" + IntText(seconds) + ")")
            == Some(days * DAY + seconds * SECOND)
  {
    hide ParseAttributes, Join, Collect, IntText, DurationOf, DaysThenSeconds, PlainNames;
    TwoItemsText(days, seconds);
    TwoItems(days, seconds);
    OnlyDaysAndSeconds(days, seconds);
    ParseInvertsPrint("timedelta", DaysThenSeconds(days, seconds));
  }
}
