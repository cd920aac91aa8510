/** Vectors as text: printed in brackets with commas between, and parsed back. */
module VectorText {

  datatype Result<T> = Ok(value: T) | OutOfRange

  // ---------------------------------------------------------------- commas

  /** The texts with a comma after each, as the printing loop leaves them. */
  function Listed(texts: seq<string>): string {
    if texts == [] then "" else texts[0] + "," + Listed(texts[1..])
  }

  /** The texts with a comma between each two. */
  function Joined(texts: seq<string>): string
    requires texts != []
  {
    if |texts| == 1 then texts[0] else texts[0] + "," + Joined(texts[1..])
  }

  /** Index of the first comma, the length if there is none. */
  function FirstComma(text: string): (k: nat)
    ensures k <= |text| && ',' !in text[..k]
    ensures k < |text| ==> text[k] == ','
  {
    if text == "" || text[0] == ',' then 0
    else
      assert text[..1 + FirstComma(text[1..])] == [text[0]] + text[1..][..FirstComma(text[1..])];
      1 + FirstComma(text[1..])
  }

  /** The pieces between the commas of a text. */
  function Fields(text: string): (fields: seq<string>)
    ensures fields != []
    decreases |text|
  {
    var k := FirstComma(text);
    if k == |text| then [text] else [text[..k]] + Fields(text[k + 1..])
  }

  lemma {:induction false} ListedIsJoined(texts: seq<string>)
    requires texts != []
    ensures Listed(texts) == Joined(texts) + ","
  {
    if |texts| == 1 {
      assert Listed(texts[1..]) == "";
    } else {
      ListedIsJoined(texts[1..]);
    }
  }

  lemma {:induction false} FirstCommaIs(text: string, k: nat)
    requires k <= |text| && ',' !in text[..k] && (k < |text| ==> text[k] == ',')
    ensures FirstComma(text) == k
  {
    if k > 0 {
      assert text[0] == text[..k][0];
      assert text[1..][..k - 1] == text[..k][1..];
      FirstCommaIs(text[1..], k - 1);
    }
  }

  lemma {:induction false} FieldsHaveNoComma(text: string)
    ensures forall i | 0 <= i < |Fields(text)| :: ',' !in Fields(text)[i]
    decreases |text|
  {
    var k := FirstComma(text);
    assert text[..|text|] == text;
    if k < |text| {
      FieldsHaveNoComma(text[k + 1..]);
    }
  }

  lemma JoinedPair(field: string, rest: seq<string>)
    requires rest != []
    ensures Joined([field] + rest) == field + "," + Joined(rest)
  {
    assert ([field] + rest)[1..] == rest;
  }

  /** Splitting loses nothing: the fields of a text, joined again, are the text. */
  lemma {:induction false} JoinedFields(text: string)
    ensures Joined(Fields(text)) == text
    decreases |text|
  {
    var k := FirstComma(text);
    if k < |text| {
      var rest := text[k + 1..];
      JoinedFields(rest);
      JoinedPair(text[..k], Fields(rest));
      CutAt(text, k);
    }
  }

  lemma CutAt(text: string, k: nat)
    requires k < |text| && text[k] == ','
    ensures text[..k] + "," + text[k + 1..] == text
  {
  }

  lemma FieldsOfPair(field: string, rest: string)
    requires ',' !in field
    ensures Fields(field + "," + rest) == [field] + Fields(rest)
  {
    var text, k := field + "," + rest, |field|;
    assert text[..k] == field && text[k + 1..] == rest;
    FirstCommaIs(text, k);
  }

  lemma FieldsOfOne(field: string)
    requires ',' !in field
    ensures Fields(field) == [field]
  {
    assert field[..|field|] == field;
    FirstCommaIs(field, |field|);
  }

  lemma {:induction false} FieldsOfJoined(texts: seq<string>)
    requires texts != [] && forall i | 0 <= i < |texts| :: ',' !in texts[i]
    ensures Fields(Joined(texts)) == texts
  {
    var first, rest := texts[0], texts[1..];
    assert texts == [first] + rest;
    if rest == [] {
      assert Joined(texts) == first;
      FieldsOfOne(first);
    } else {
      FieldsOfJoined(rest);
      FieldsOfPair(first, Joined(rest));
      JoinedPair(first, rest);
    }
  }

  // ---------------------------------------------------------------- the vector adapter

  function Mapped<T, U>(f: T -> U, data: seq<T>): seq<U> {
    seq(|data|, i requires 0 <= i < |data| => f(data[i]))
  }

  /** What to_string leaves in its string, which it extends before it adds the brackets. */
  function Printed(str: string, texts: seq<string>): string {
    var s := str + Listed(texts);
    "[" + (if s == "" then "" else s[..|s| - 1]) + "]"
  }

  /** The part from_string reads; taking a substring of the empty string throws. */
  function Content(str: string): string
    requires str != ""
  {
    if |str| == 1 then "" else str[1..|str| - 1]
  }

  /**
   * The elements from_string appends. Before each field is parsed its variable holds a value
   * nobody has set, here junk(i) for the i-th.
   */
  function Parsed<T>(parse: (string, T) -> T, junk: nat -> T, str: string): seq<T>
    requires str != ""
  {
    var fields := Fields(Content(str));
    seq(|fields|, i requires 0 <= i < |fields| => parse(fields[i], junk(i)))
  }

  /** AnyDataAdapter<vector<T>>::to_string for an element adapter that shows a value as text. */
  method ToString<T>(show: T -> string, data: seq<T>, str: string) returns (r: string)
    ensures r == Printed(str, Mapped(show, data))
  {
    r := str;
    ghost var texts := Mapped(show, data);
    assert texts[0..] == texts;
    for i := 0 to |data|
      invariant r + Listed(texts[i..]) == str + Listed(texts)
    {
      assert texts[i..][0] == show(data[i]) && texts[i..][1..] == texts[i + 1..];
      r := r + show(data[i]);
      r := r + ",";
    }
    assert r == str + Listed(texts);
    r := "[" + (if r == "" then "" else r[..|r| - 1]) + "]";
  }

  /** std::getline up to a comma, on a stream of which `rest` is still unread. */
  method GetLine(rest: string) returns (line: string, tail: string, eof: bool)
    ensures eof <==> FirstComma(rest) == |rest|
    ensures line == rest[..FirstComma(rest)]
    ensures tail == if eof then "" else rest[FirstComma(rest) + 1..]
    ensures Fields(rest) == [line] + if eof then [] else Fields(tail)
  {
    var i := 0;
    while i < |rest| && rest[i] != ','
      invariant i <= |rest| && ',' !in rest[..i]
    {
      i := i + 1;
    }
    FirstCommaIs(rest, i);
    line, eof := rest[..i], i == |rest|;
    tail := if eof then "" else rest[i + 1..];
    assert rest[..|rest|] == rest;
  }

  lemma ParsedNext<T>(parse: (string, T) -> T, junk: nat -> T, str: string, i: nat)
    requires str != "" && i < |Fields(Content(str))|
    ensures Parsed(parse, junk, str)[..i + 1] ==
            Parsed(parse, junk, str)[..i] + [parse(Fields(Content(str))[i], junk(i))]
  {
  }

  lemma NextField(fields: seq<string>, i: nat, field: string, rest: seq<string>)
    requires i <= |fields| && fields[i..] == [field] + rest
    ensures i < |fields| && fields[i] == field && fields[i + 1..] == rest
  {
    assert fields[i] == fields[i..][0];
    assert fields[i + 1..] == fields[i..][1..];
  }

  /** After i passes of the parsing loop these fields are left. */
  ghost predicate ReadSoFar<T>(parse: (string, T) -> T, junk: nat -> T, str: string,
                               data: seq<T>, out: seq<T>, i: nat, left: seq<string>)
    requires str != ""
  {
    && i <= |Fields(Content(str))| && left == Fields(Content(str))[i..]
    && out == data + Parsed(parse, junk, str)[..i]
  }

  lemma ReadOne<T>(parse: (string, T) -> T, junk: nat -> T, str: string,
                   data: seq<T>, out: seq<T>, i: nat, field: string, left: seq<string>)
    requires str != "" && ReadSoFar(parse, junk, str, data, out, i, [field] + left)
    ensures ReadSoFar(parse, junk, str, data, out + [parse(field, junk(i))], i + 1, left)
  {
    NextField(Fields(Content(str)), i, field, left);
    ParsedNext(parse, junk, str, i);
  }

  lemma ReadAll<T>(parse: (string, T) -> T, junk: nat -> T, str: string, data: seq<T>, out: seq<T>, i: nat)
    requires str != "" && ReadSoFar(parse, junk, str, data, out, i, [])
    ensures out == data + Parsed(parse, junk, str)
  {
    assert |Fields(Content(str))[i..]| == 0;
    var all := Parsed(parse, junk, str);
    assert all[..|all|] == all;
  }

  /** AnyDataAdapter<vector<T>>::from_string. */
  method FromString<T>(parse: (string, T) -> T, junk: nat -> T, str: string, data: seq<T>) returns (r: Result<seq<T>>)
    ensures r == if str == "" then OutOfRange else Ok(data + Parsed(parse, junk, str))
  {
    if str == "" {
      return OutOfRange;
    }
    var out, rest, eof := data, Content(str), false;
    var i := 0;
    while !eof
      invariant 0 <= i && ReadSoFar(parse, junk, str, data, out, i, if eof then [] else Fields(rest))
      decreases !eof, |rest|
    {
      var d, tail, end := GetLine(rest);
      ReadOne(parse, junk, str, data, out, i, d, if end then [] else Fields(tail));
      out := out + [parse(d, junk(i))];
      rest, eof := tail, end;
      i := i + 1;
    }
    ReadAll(parse, junk, str, data, out, i);
    return Ok(out);
  }

  // ---------------------------------------------------------------- what the adapter promises

  lemma PrintedContent(texts: seq<string>)
    requires texts != []
    ensures Printed("", texts) == "[" + Joined(texts) + "]"
    ensures Content(Printed("", texts)) == Joined(texts)
  {
    ListedIsJoined(texts);
    assert "" + Listed(texts) == Listed(texts);
  }

  /**
   * The printed elements come back as the fields exactly when there is an element, none of them
   * shows a comma, and printing began with an empty string.
   */
  lemma FieldsComeBackIff(str: string, texts: seq<string>)
    ensures Fields(Content(Printed(str, texts))) == texts
            <==> str == "" && texts != [] && forall i | 0 <= i < |texts| :: ',' !in texts[i]
  {
    var content := Content(Printed(str, texts));
    if texts != [] {
      ListedIsJoined(texts);
      assert content == str + Joined(texts);
      if str == "" && forall i | 0 <= i < |texts| :: ',' !in texts[i] {
        FieldsOfJoined(texts);
        assert "" + Joined(texts) == Joined(texts);
      }
      if Fields(content) == texts {
        JoinedFields(content);
        assert |str + Joined(texts)| == |Joined(texts)|;
        FieldsHaveNoComma(content);
      }
    }
  }

  /** The string adapter shows a string as it is, */
  function ShowString(text: string): string {
    text
  }

  /** and reads it as it is, whatever the variable held. */
  function ReadString(text: string, before: string): string {
    text
  }

  lemma StringsAreFields(junk: nat -> string, s: string)
    requires s != ""
    ensures Parsed(ReadString, junk, s) == Fields(Content(s))
  {
    var fields, v := Fields(Content(s)), Parsed(ReadString, junk, s);
    forall i | 0 <= i < |fields|
      ensures v[i] == fields[i]
    {
      assert v[i] == ReadString(fields[i], junk(i));
    }
  }

  lemma StringsAreTexts(v: seq<string>)
    ensures Mapped(ShowString, v) == v
  {
    forall i | 0 <= i < |v|
      ensures Mapped(ShowString, v)[i] == v[i]
    {
      assert Mapped(ShowString, v)[i] == ShowString(v[i]);
    }
  }

  /** For strings, which are shown and read as they are, that is the whole story. */
  lemma StringsRoundTripIff(junk: nat -> string, v: seq<string>)
    ensures Parsed(ReadString, junk, Printed("", Mapped(ShowString, v))) == v
            <==> v != [] && forall i | 0 <= i < |v| :: ',' !in v[i]
  {
    var s := Printed("", Mapped(ShowString, v));
    StringsAreTexts(v);
    FieldsComeBackIff("", v);
    StringsAreFields(junk, s);
  }

  /** The empty vector and an element with a comma do not survive. */
  lemma LossOccurs(junk: nat -> string)
    ensures Parsed(ReadString, junk, Printed("", Mapped(ShowString, []))) != []
    ensures Parsed(ReadString, junk, Printed("", Mapped(ShowString, ["a,b"]))) != ["a,b"]
  {
    StringsRoundTripIff(junk, []);
    assert "a,b"[1] == ',';
    assert ',' in ["a,b"][0];
    StringsRoundTripIff(junk, ["a,b"]);
  }

  lemma BracketsBack(s: string)
    requires s != ""
    ensures "[" + Content(s) + "]" == s <==> |s| >= 2 && s[0] == '[' && s[|s| - 1] == ']'
  {
    var t := "[" + Content(s) + "]";
    assert t[0] == '[' && t[|t| - 1] == ']' && |t| >= 2;
    if |s| >= 2 && s[0] == '[' && s[|s| - 1] == ']' {
      assert s == [s[0]] + s[1..|s| - 1] + [s[|s| - 1]];
    }
  }

  /** Parsing strings and printing them again gives back every text that is in brackets. */
  lemma StringsReprintIff(junk: nat -> string, s: string)
    requires s != ""
    ensures Printed("", Mapped(ShowString, Parsed(ReadString, junk, s))) == s
            <==> |s| >= 2 && s[0] == '[' && s[|s| - 1] == ']'
  {
    var v := Parsed(ReadString, junk, s);
    StringsAreFields(junk, s);
    StringsAreTexts(v);
    PrintedContent(v);
    JoinedFields(Content(s));
    BracketsBack(s);
  }

  // ---------------------------------------------------------------- integers

  const INT_MAX: int := 0x7fff_ffff
  const INT_MIN: int := -0x8000_0000

  function DigitChar(d: nat): (c: char)
    requires d < 10
  {
    "0123456789"[d]
  }

  predicate IsDigit(c: char) {
    '0' <= c <= '9'
  }

  function DigitValue(c: char): nat
    requires IsDigit(c)
  {
    c as nat - '0' as nat
  }

  function Decimal(n: nat): (text: string) {
    if n < 10 then [DigitChar(n)] else Decimal(n / 10) + [DigitChar(n % 10)]
  }

  /** std::to_string. */
  function IntText(i: int): string {
    if i < 0 then "-" + Decimal(-i) else Decimal(i)
  }

  predicate IsSpace(c: char) {
    c == ' ' || '\t' <= c <= '\r'
  }

  function SkipSpace(text: string): string {
    if text != "" && IsSpace(text[0]) then SkipSpace(text[1..]) else text
  }

  function LeadingDigits(text: string): (digits: string)
    ensures forall c | c in digits :: IsDigit(c)
  {
    if text != "" && IsDigit(text[0]) then [text[0]] + LeadingDigits(text[1..]) else ""
  }

  function DecimalValue(digits: string): nat
    requires forall c | c in digits :: IsDigit(c)
  {
    if digits == "" then 0
    else 10 * DecimalValue(digits[..|digits| - 1]) + DigitValue(digits[|digits| - 1])
  }

  function Clamp(i: int): int {
    if i > INT_MAX then INT_MAX else if i < INT_MIN then INT_MIN else i
  }

  /**
   * A stream extraction into an int that held `before`: with nothing but space left it is not
   * touched, without digits it becomes zero, and a number out of range becomes the nearest int.
   */
  function ReadInt(text: string, before: int): int {
    var t := SkipSpace(text);
    if t == "" then before
    else
      var digits := LeadingDigits(if t[0] == '-' || t[0] == '+' then t[1..] else t);
      Clamp(if t[0] == '-' then 0 - DecimalValue(digits) else DecimalValue(digits))
  }

  lemma {:induction false} DecimalIsDigits(n: nat)
    ensures Decimal(n) != "" && forall c | c in Decimal(n) :: IsDigit(c)
  {
    assert IsDigit(DigitChar(n % 10));
    if n >= 10 {
      DecimalIsDigits(n / 10);
    }
  }

  lemma {:induction false} LeadingDigitsOf(text: string)
    requires forall c | c in text :: IsDigit(c)
    ensures LeadingDigits(text) == text
  {
    if text != "" {
      LeadingDigitsOf(text[1..]);
      assert text == [text[0]] + text[1..];
    }
  }

  lemma {:induction false} DecimalReadsBack(n: nat)
    ensures (forall c | c in Decimal(n) :: IsDigit(c)) && DecimalValue(Decimal(n)) == n
  {
    DecimalIsDigits(n);
    var text := Decimal(n);
    assert DigitValue(DigitChar(n % 10)) == n % 10;
    if n >= 10 {
      DecimalReadsBack(n / 10);
      assert text[..|text| - 1] == Decimal(n / 10);
    }
  }

  /** Reading undoes printing, whatever the variable held; out of range it gives the nearest int. */
  lemma IntReadsBack(i: int, before: int)
    ensures ReadInt(IntText(i), before) == Clamp(i)
    ensures ',' !in IntText(i)
  {
    var n: nat := if i < 0 then -i else i;
    var text := Decimal(n);
    DecimalIsDigits(n);
    DecimalReadsBack(n);
    LeadingDigitsOf(text);
    assert IsDigit(text[0]);
    if i < 0 {
      assert IntText(i)[1..] == text;
    }
  }

  /** A vector of ints comes back exactly when it is not empty. */
  lemma IntsRoundTripIff(junk: nat -> int, v: seq<int>)
    requires forall i | 0 <= i < |v| :: INT_MIN <= v[i] <= INT_MAX
    ensures Parsed(ReadInt, junk, Printed("", Mapped(IntText, v))) == v <==> v != []
  {
    var texts := Mapped(IntText, v);
    var fields := Fields(Content(Printed("", texts)));
    forall i | 0 <= i < |v|
      ensures ',' !in texts[i] && ReadInt(texts[i], junk(i)) == v[i]
    {
      IntReadsBack(v[i], junk(i));
    }
    FieldsComeBackIff("", texts);
    assert |Parsed(ReadInt, junk, Printed("", texts))| == |fields|;
  }

  // ---------------------------------------------------------------- integers written by hand

  predicate AllSpaces(text: string) {
    forall c | c in text :: IsSpace(c)
  }

  lemma {:induction false} SkipsSpaces(spaces: string, rest: string)
    requires AllSpaces(spaces) && (rest != "" ==> !IsSpace(rest[0]))
    ensures SkipSpace(spaces + rest) == rest
  {
    if spaces == "" {
      assert spaces + rest == rest;
    } else {
      assert (spaces + rest)[1..] == spaces[1..] + rest;
      SkipsSpaces(spaces[1..], rest);
    }
  }

  lemma {:induction false} LeadingDigitsEnd(digits: string, rest: string)
    requires (forall c | c in digits :: IsDigit(c)) && (rest != "" ==> !IsDigit(rest[0]))
    ensures LeadingDigits(digits + rest) == digits
  {
    if digits == "" {
      assert digits + rest == rest;
    } else {
      assert (digits + rest)[1..] == digits[1..] + rest;
      LeadingDigitsEnd(digits[1..], rest);
    }
  }

  /** Whatever a field looks like, reading an int takes spaces, a sign, the digits, and leaves the rest. */
  lemma ReadsNumber(spaces: string, sign: string, digits: string, rest: string, before: int)
    requires AllSpaces(spaces) && (sign == "" || sign == "-" || sign == "+")
    requires (forall c | c in digits :: IsDigit(c)) && (rest != "" ==> !IsDigit(rest[0]))
    requires sign == "" && digits == "" ==> rest != "" && !IsSpace(rest[0]) && rest[0] != '-' && rest[0] != '+'
    ensures ReadInt(spaces + (sign + (digits + rest)), before)
         == Clamp(if sign == "-" then 0 - DecimalValue(digits) else DecimalValue(digits))
  {
    var t := sign + (digits + rest);
    LeadingDigitsEnd(digits, rest);
    if sign == "" {
      assert t == digits + rest;
      assert t[0] == if digits != "" then digits[0] else rest[0];
      assert digits != "" ==> digits[0] in digits;
    } else {
      assert t[0] == sign[0] && t[1..] == digits + rest;
    }
    SkipsSpaces(spaces, t);
  }

  /** A field of nothing but spaces leaves the variable as it was. */
  lemma ReadsNothing(spaces: string, before: int)
    requires AllSpaces(spaces)
    ensures ReadInt(spaces, before) == before
  {
    assert spaces + "" == spaces;
    SkipsSpaces(spaces, "");
  }

  lemma SpacedIntReadsBack(spaces: string, i: int, rest: string, before: int)
    requires AllSpaces(spaces) && (rest != "" ==> !IsDigit(rest[0]))
    ensures ReadInt(spaces + IntText(i) + rest, before) == Clamp(i)
  {
    var n: nat := if i < 0 then -i else i;
    DecimalIsDigits(n);
    DecimalReadsBack(n);
    var sign := if i < 0 then "-" else "";
    ReadsNumber(spaces, sign, Decimal(n), rest, before);
    assert IntText(i) == sign + Decimal(n);
    Regroup(spaces, sign, Decimal(n), rest);
  }

  lemma Regroup(a: string, b: string, c: string, d: string)
    ensures a + (b + c) + d == a + (b + (c + d))
  {
  }

  /** So spaces around the commas, as in "[1, 2]", do no harm. */
  lemma SpacedIntsReadBack(junk: nat -> int, before: seq<string>, v: seq<int>, after: seq<string>)
    requires v != [] && |before| == |v| && |after| == |v|
    requires forall i | 0 <= i < |v| :: AllSpaces(before[i]) && AllSpaces(after[i]) && INT_MIN <= v[i] <= INT_MAX
    ensures var texts := seq(|v|, i requires 0 <= i < |v| => before[i] + IntText(v[i]) + after[i]);
            Parsed(ReadInt, junk, "[" + Joined(texts) + "]") == v
  {
    var texts := seq(|v|, i requires 0 <= i < |v| => before[i] + IntText(v[i]) + after[i]);
    var s := "[" + Joined(texts) + "]";
    assert Content(s) == Joined(texts);
    forall i | 0 <= i < |v|
      ensures ',' !in texts[i] && ReadInt(texts[i], junk(i)) == v[i]
    {
      assert after[i] != "" ==> after[i][0] in after[i];
      SpacedIntReadsBack(before[i], v[i], after[i], junk(i));
      IntReadsBack(v[i], junk(i));
    }
    FieldsOfJoined(texts);
  }
}
