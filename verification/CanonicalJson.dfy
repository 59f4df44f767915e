/** The canonical JSON text of a hub frame: how it is printed, a reader that
    recovers what was printed, and what equal texts say about the values. */
module CanonicalJson {
  import opened Wrappers

  predicate IsDigit(c: char) {
    '0' <= c <= '9'
  }

  predicate IsNumberChar(c: char) {
    IsDigit(c) || c == '.' || c == 'e' || c == '+' || c == '-'
  }

  predicate HasPointOrExponent(s: string) {
    '.' in s || 'e' in s
  }

  /** The shortest text that reads back as a float with a fraction. */
  predicate IsFraction(s: string) {
    && s != "" && (s[0] == '-' || IsDigit(s[0]))
    && (forall i :: 0 <= i < |s| ==> IsNumberChar(s[i]))
    && HasPointOrExponent(s)
  }

  type Fraction = s: string | IsFraction(s) witness "0.5"

  datatype Special = Infinity | MinusInfinity | NotANumber

  /** A Python value as found in a frame. A dictionary keeps its insertion order;
      `Whole` is a float with an integral value, `Frac` any other finite one,
      identified by its shortest representation, `NonFinite` one that is not finite. */
  datatype Value =
    | Null
    | Bool(b: bool)
    | Int(n: int)
    | Whole(n: int)
    | Frac(repr: Fraction)
    | NonFinite(special: Special)
    | Str(s: string)
    | Arr(items: seq<Value>)
    | Obj(fields: seq<(string, Value)>)

  /** What the canonical text denotes: no insertion order, one kind of number. */
  datatype Json =
    | JNull
    | JBool(b: bool)
    | JNum(n: int)
    | JFrac(repr: Fraction)
    | JSpecial(special: Special)
    | JStr(s: string)
    | JArr(items: seq<Json>)
    | JObj(fields: seq<(string, Json)>)

  type Frame = seq<(string, Value)>

  // ---- Printing -----------------------------------------------------------

  function HexDigit(d: nat): char
    requires d < 16
  {
    "0123456789abcdef"[d]
  }

  function Escape(c: char): string {
    if c == '"' then "\\\""
    else if c == '\\' then "\\\\"
    else if c == '\n' then "\\n"
    else if c == '\r' then "\\r"
    else if c == '\t' then "\\t"
    else if (c as int) < 0x20 then ['\\', 'u', '0', '0', HexDigit(c as int / 16), HexDigit(c as int % 16)]
    else [c]
  }

  function EscapeAll(s: string): string {
    if s == "" then "" else Escape(s[0]) + EscapeAll(s[1..])
  }

  function CanonStr(s: string): string {
    "\"" + EscapeAll(s) + "\""
  }

  function Digits(n: nat): (s: string)
    ensures s != "" && forall i :: 0 <= i < |s| ==> IsDigit(s[i])
  {
    if n < 10 then [HexDigit(n)] else Digits(n / 10) + [HexDigit(n % 10)]
  }

  function Decimal(n: int): string {
    if n < 0 then "-" + Digits(-n) else Digits(n)
  }

  function SpecialText(special: Special): string {
    match special
    case Infinity => "inf"
    case MinusInfinity => "-inf"
    case NotANumber => "nan"
  }

  function Print(j: Json): string {
    match j
    case JNull => "null"
    case JBool(b) => if b then "true" else "false"
    case JNum(n) => Decimal(n)
    case JFrac(repr) => repr
    case JSpecial(special) => SpecialText(special)
    case JStr(s) => CanonStr(s)
    case JArr(items) => "[" + PrintItems(items) + "]"
    case JObj(fields) => "{" + PrintFields(fields) + "}"
  }

  function PrintItems(items: seq<Json>): string {
    if items == [] then ""
    else if |items| == 1 then Print(items[0])
    else Print(items[0]) + "," + PrintItems(items[1..])
  }

  function PrintField(field: (string, Json)): string {
    CanonStr(field.0) + ":" + Print(field.1)
  }

  function PrintFields(fields: seq<(string, Json)>): string {
    if fields == [] then ""
    else if |fields| == 1 then PrintField(fields[0])
    else PrintField(fields[0]) + "," + PrintFields(fields[1..])
  }

  // ---- Key order ----------------------------------------------------------

  /** Lexicographic order by code point. */
  predicate Less(a: string, b: string) {
    b != "" && (a == "" || a[0] < b[0] || (a[0] == b[0] && Less(a[1..], b[1..])))
  }

  lemma {:induction false} LessIsTotal(a: string, b: string)
    ensures a == b || Less(a, b) || Less(b, a)
    ensures !(Less(a, b) && Less(b, a)) && !Less(a, a)
  {
    if a != "" && b != "" {
      LessIsTotal(a[1..], b[1..]);
      assert a == [a[0]] + a[1..] && b == [b[0]] + b[1..];
    }
    if a != "" {
      LessIsTotal(a[1..], a[1..]);
    }
  }

  lemma {:induction false} LessIsTransitive(a: string, b: string, c: string)
    requires Less(a, b) && Less(b, c)
    ensures Less(a, c)
  {
    if a != "" && a[0] == b[0] == c[0] {
      LessIsTransitive(a[1..], b[1..], c[1..]);
    }
  }

  function Insert(field: (string, Json), fields: seq<(string, Json)>): (r: seq<(string, Json)>)
    ensures |r| == |fields| + 1
  {
    if fields == [] || Less(field.0, fields[0].0) then [field] + fields
    else [fields[0]] + Insert(field, fields[1..])
  }

  function Sort(fields: seq<(string, Json)>): seq<(string, Json)> {
    if fields == [] then [] else Insert(fields[0], Sort(fields[1..]))
  }

  function Normal(v: Value): Json {
    match v
    case Null => JNull
    case Bool(b) => JBool(b)
    case Int(n) => JNum(n)
    case Whole(n) => JNum(n)
    case Frac(repr) => JFrac(repr)
    case NonFinite(special) => JSpecial(special)
    case Str(s) => JStr(s)
    case Arr(items) => JArr(NormalItems(items))
    case Obj(fields) => JObj(Sort(NormalFields(fields)))
  }

  function NormalItems(items: seq<Value>): (r: seq<Json>)
    ensures |r| == |items|
    ensures forall i :: 0 <= i < |items| ==> r[i] == Normal(items[i])
  {
    if items == [] then [] else [Normal(items[0])] + NormalItems(items[1..])
  }

  function NormalFields(fields: seq<(string, Value)>): (r: seq<(string, Json)>)
    ensures |r| == |fields|
    ensures forall i :: 0 <= i < |fields| ==> r[i] == NormalField(fields[i])
  {
    if fields == [] then [] else [NormalField(fields[0])] + NormalFields(fields[1..])
  }

  function NormalField(field: (string, Value)): (string, Json) {
    (field.0, Normal(field.1))
  }

  function Canon(v: Value): string {
    Print(Normal(v))
  }

  function Without(frame: Frame, key: string): Frame {
    if frame == [] then []
    else if frame[0].0 == key then Without(frame[1..], key)
    else [frame[0]] + Without(frame[1..], key)
  }

  function CanonicalText(frame: Frame): string {
    Canon(Obj(Without(frame, "mac")))
  }

  // ---- Reading the canonical text -----------------------------------------

  function HexValue(c: char): Option<nat> {
    if '0' <= c <= '9' then Some(c as int - '0' as int)
    else if 'a' <= c <= 'f' then Some(c as int - 'a' as int + 10)
    else None
  }

  function Unescape(t: string): Option<(char, string)> {
    if t == "" then None
    else if t[0] != '\\' then Some((t[0], t[1..]))
    else if |t| < 2 then None
    else if t[1] == '"' then Some(('"', t[2..]))
    else if t[1] == '\\' then Some(('\\', t[2..]))
    else if t[1] == 'n' then Some(('\n', t[2..]))
    else if t[1] == 'r' then Some(('\r', t[2..]))
    else if t[1] == 't' then Some(('\t', t[2..]))
    else if t[1] == 'u' && |t| >= 6 && t[2] == '0' && t[3] == '0'
            && HexValue(t[4]).Some? && HexValue(t[5]).Some? then
      Some(((HexValue(t[4]).value * 16 + HexValue(t[5]).value) as char, t[6..]))
    else None
  }

  /** The rest of a string literal, after its opening quote. */
  function ReadString(t: string): (r: Option<(string, string)>)
    ensures r.Some? ==> |r.value.1| < |t|
    decreases |t|
  {
    if t == "" then None
    else if t[0] == '"' then Some(("", t[1..]))
    else
      match Unescape(t)
      case None => None
      case Some((c, rest)) =>
        match ReadString(rest)
        case None => None
        case Some((s, after)) => Some(([c] + s, after))
  }

  function DigitRun(t: string): (k: nat)
    ensures k <= |t|
    ensures forall i :: 0 <= i < k ==> IsDigit(t[i])
  {
    if t == "" || !IsDigit(t[0]) then 0 else 1 + DigitRun(t[1..])
  }

  /** The longest run of characters that a number can be written with. */
  function NumberRun(t: string): (k: nat)
    ensures k <= |t|
    ensures forall i :: 0 <= i < k ==> IsNumberChar(t[i])
  {
    if t == "" || !IsNumberChar(t[0]) then 0 else 1 + NumberRun(t[1..])
  }

  function DigitValue(c: char): (d: nat)
    requires IsDigit(c)
    ensures d < 10
  {
    c as int - '0' as int
  }

  function ValueOf(digits: string): nat
    requires forall i :: 0 <= i < |digits| ==> IsDigit(digits[i])
  {
    if digits == "" then 0
    else 10 * ValueOf(digits[..|digits| - 1]) + DigitValue(digits[|digits| - 1])
  }

  predicate AllDigits(s: string) {
    forall i :: 0 <= i < |s| ==> IsDigit(s[i])
  }

  function NumberOf(token: string): Option<Json> {
    var digits := if token != "" && token[0] == '-' then token[1..] else token;
    if HasPointOrExponent(token) then (if IsFraction(token) then Some(JFrac(token)) else None)
    else if digits == "" || !AllDigits(digits) then None
    else
      var n: int := ValueOf(digits);
      Some(JNum(if token[0] == '-' then -n else n))
  }

  function ReadNumber(t: string): (r: Option<(Json, string)>)
    ensures r.Some? ==> |r.value.1| < |t|
  {
    var k := NumberRun(t);
    if k == 0 then None
    else match NumberOf(t[..k]) case None => None case Some(j) => Some((j, t[k..]))
  }

  function ReadSpecial(t: string): (r: Option<(Special, string)>)
    ensures r.Some? ==> |r.value.1| < |t|
  {
    if "inf" <= t then Some((Infinity, t[3..]))
    else if "-inf" <= t then Some((MinusInfinity, t[4..]))
    else if "nan" <= t then Some((NotANumber, t[3..]))
    else None
  }

  function Read(t: string): (r: Option<(Json, string)>)
    ensures r.Some? ==> |r.value.1| < |t|
    decreases |t|, 0
  {
    if t == "" then None
    else if ReadSpecial(t).Some? then Some((JSpecial(ReadSpecial(t).value.0), ReadSpecial(t).value.1))
    else if t[0] == 'n' then (if "null" <= t then Some((JNull, t[4..])) else None)
    else if t[0] == 't' then (if "true" <= t then Some((JBool(true), t[4..])) else None)
    else if t[0] == 'f' then (if "false" <= t then Some((JBool(false), t[5..])) else None)
    else if t[0] == '"' then
      (match ReadString(t[1..]) case None => None case Some((s, rest)) => Some((JStr(s), rest)))
    else if t[0] == '[' then
      if |t| > 1 && t[1] == ']' then Some((JArr([]), t[2..]))
      else (match ReadItems(t[1..]) case None => None case Some((items, rest)) => Some((JArr(items), rest)))
    else if t[0] == '{' then
      if |t| > 1 && t[1] == '}' then Some((JObj([]), t[2..]))
      else (match ReadFields(t[1..]) case None => None case Some((fields, rest)) => Some((JObj(fields), rest)))
    else ReadNumber(t)
  }

  /** One or more values up to the closing bracket. */
  function ReadItems(t: string): (r: Option<(seq<Json>, string)>)
    ensures r.Some? ==> |r.value.1| < |t|
    decreases |t|, 1
  {
    match Read(t)
    case None => None
    case Some((j, rest)) =>
      if rest == "" then None
      else if rest[0] == ']' then Some(([j], rest[1..]))
      else if rest[0] != ',' then None
      else (match ReadItems(rest[1..]) case None => None case Some((js, after)) => Some(([j] + js, after)))
  }

  function ReadField(t: string): (r: Option<((string, Json), string)>)
    ensures r.Some? ==> |r.value.1| < |t|
    decreases |t|, 1
  {
    if t == "" || t[0] != '"' then None
    else
      match ReadString(t[1..])
      case None => None
      case Some((k, rest)) =>
        if rest == "" || rest[0] != ':' then None
        else (match Read(rest[1..]) case None => None case Some((j, after)) => Some(((k, j), after)))
  }

  function ReadFields(t: string): (r: Option<(seq<(string, Json)>, string)>)
    ensures r.Some? ==> |r.value.1| < |t|
    decreases |t|, 2
  {
    match ReadField(t)
    case None => None
    case Some((f, rest)) =>
      if rest == "" then None
      else if rest[0] == '}' then Some(([f], rest[1..]))
      else if rest[0] != ',' then None
      else (match ReadFields(rest[1..]) case None => None case Some((fs, after)) => Some(([f] + fs, after)))
  }

  // ---- Reading undoes printing --------------------------------------------

  lemma UnescapeEscape(c: char, rest: string)
    ensures Unescape(Escape(c) + rest) == Some((c, rest))
    ensures (Escape(c) + rest)[0] != '"'
  {
    var t := Escape(c) + rest;
    assert t[|Escape(c)|..] == rest;
    if (c as int) < 0x20 && c !in {'\n', '\r', '\t'} {
      HexRoundTrip(c as int / 16);
      HexRoundTrip(c as int % 16);
      assert t[4] == HexDigit(c as int / 16) && t[5] == HexDigit(c as int % 16);
    }
  }

  lemma HexRoundTrip(d: nat)
    requires d < 16
    ensures HexValue(HexDigit(d)) == Some(d)
  {
  }

  lemma {:induction false} ReadStringBack(s: string, rest: string)
    ensures ReadString(EscapeAll(s) + ("\"" + rest)) == Some((s, rest))
  {
    hide Escape, Unescape;
    if s == "" {
      assert EscapeAll(s) + ("\"" + rest) == "\"" + rest;
    } else {
      ReadStringBack(s[1..], rest);
      var tail := EscapeAll(s[1..]) + ("\"" + rest);
      UnescapeEscape(s[0], tail);
      assert EscapeAll(s) + ("\"" + rest) == Escape(s[0]) + tail;
      assert s == [s[0]] + s[1..];
    }
  }

  lemma ReadCanonStr(s: string, rest: string)
    ensures CanonStr(s) + rest != "" && (CanonStr(s) + rest)[0] == '"'
    ensures ReadString((CanonStr(s) + rest)[1..]) == Some((s, rest))
  {
    ReadStringBack(s, rest);
    assert (CanonStr(s) + rest)[1..] == EscapeAll(s) + ("\"" + rest);
  }

  lemma {:induction false} ValueOfDigits(n: nat)
    ensures ValueOf(Digits(n)) == n
  {
    if n < 10 {
      assert Digits(n)[..0] == "";
    } else {
      ValueOfDigits(n / 10);
      assert Digits(n)[..|Digits(n)| - 1] == Digits(n / 10);
    }
  }

  /** Text that cannot be taken for more of a number. */
  predicate NoNumberFirst(t: string) {
    t != "" ==> !IsNumberChar(t[0])
  }

  lemma {:induction false} NumberRunOf(token: string, rest: string)
    requires forall i :: 0 <= i < |token| ==> IsNumberChar(token[i])
    requires NoNumberFirst(rest)
    ensures NumberRun(token + rest) == |token|
  {
    if token == "" {
      assert token + rest == rest;
    } else {
      assert (token + rest)[1..] == token[1..] + rest;
      NumberRunOf(token[1..], rest);
    }
  }

  lemma ReadToken(token: string, rest: string)
    requires token != "" && forall i :: 0 <= i < |token| ==> IsNumberChar(token[i])
    requires NoNumberFirst(rest)
    ensures ReadNumber(token + rest) == match NumberOf(token) case None => None case Some(j) => Some((j, rest))
  {
    hide NumberRun, NumberOf;
    NumberRunOf(token, rest);
    assert (token + rest)[..|token|] == token && (token + rest)[|token|..] == rest;
  }

  lemma ReadDecimal(n: int, rest: string)
    requires NoNumberFirst(rest)
    ensures ReadNumber(Decimal(n) + rest) == Some((JNum(n), rest))
    ensures Decimal(n) != "" && (Decimal(n)[0] == '-' || IsDigit(Decimal(n)[0]))
    ensures Decimal(n)[0] == '-' ==> |Decimal(n)| > 1 && IsDigit(Decimal(n)[1])
  {
    hide ValueOf, Digits, ReadNumber;
    var m: nat := if n < 0 then -n else n;
    ValueOfDigits(m);
    var digits := Digits(m);
    assert ("-" + digits)[1..] == digits;
    assert !IsDigit('.') && !IsDigit('e');
    ReadToken(Decimal(n), rest);
  }

  lemma ReadFraction(repr: Fraction, rest: string)
    requires NoNumberFirst(rest)
    ensures ReadNumber(repr + rest) == Some((JFrac(repr), rest))
    ensures repr != "" && (repr[0] == '-' || IsDigit(repr[0]))
    ensures repr[0] == '-' ==> |repr| > 1 && IsNumberChar(repr[1])
  {
    hide ReadNumber;
    ReadToken(repr, rest);
  }

  lemma ReadSpecialBack(special: Special, rest: string)
    ensures ReadSpecial(SpecialText(special) + rest) == Some((special, rest))
  {
    var t := SpecialText(special) + rest;
    assert t[|SpecialText(special)|..] == rest && t[..|SpecialText(special)|] == SpecialText(special);
    assert t[0] == SpecialText(special)[0];
  }

  lemma SpecialStarts(special: Special)
    ensures SpecialText(special) != "" && SpecialText(special)[0] in {'i', '-', 'n'}
  {
  }

  /** What begins in none of the three ways. */
  lemma NotSpecial(t: string)
    requires t != "" && t[0] != 'i'
    requires t[0] == 'n' || t[0] == '-' ==> |t| > 1 && t[1] != 'i' && t[1] != 'a'
    ensures ReadSpecial(t) == None
  {
  }

  lemma DelimiterEndsNumber(tail: string)
    ensures NoNumberFirst("," + tail) && NoNumberFirst("]" + tail) && NoNumberFirst("}" + tail)
  {
  }

  lemma NothingToPrint()
    ensures PrintItems([]) == "" && PrintFields([]) == ""
  {
  }

  /** Reading undoes printing, whatever follows that does not extend a number. */
  lemma {:induction false} ReadPrint(j: Json, rest: string)
    requires NoNumberFirst(rest)
    ensures Read(Print(j) + rest) == Some((j, rest))
    ensures Print(j) != "" && Print(j)[0] !in {']', '}', ','}
    decreases j, 0
  {
    hide ReadString, ReadItems, ReadFields, ReadNumber, PrintItems, PrintFields, CanonStr, Decimal, NoNumberFirst, IsFraction, ReadSpecial, SpecialText;
    var t := Print(j) + rest;
    match j
    case JNull =>
      assert t[4..] == rest && t[..4] == "null" && t[1] == 'u';
      NotSpecial(t);
    case JBool(b) =>
      assert t[|Print(j)|..] == rest && t[..|Print(j)|] == Print(j);
      NotSpecial(t);
    case JNum(n) =>
      ReadDecimal(n, rest);
      NotSpecial(t);
    case JFrac(repr) =>
      ReadFraction(repr, rest);
      NotSpecial(t);
    case JSpecial(special) =>
      SpecialStarts(special);
      ReadSpecialBack(special, rest);
    case JStr(s) =>
      ReadCanonStr(s, rest);
      NotSpecial(t);
    case JArr(items) =>
      NotSpecial(t);
      if items == [] {
        NothingToPrint();
        assert t[2..] == rest;
      } else {
        ReadPrintItems(items, rest);
        assert t[1..] == PrintItems(items) + ("]" + rest);
        assert PrintItems(items)[0] == t[1];
      }
    case JObj(fields) =>
      NotSpecial(t);
      if fields == [] {
        NothingToPrint();
        assert t[2..] == rest;
      } else {
        ReadPrintFields(fields, rest);
        assert t[1..] == PrintFields(fields) + ("}" + rest);
        assert PrintFields(fields)[0] == t[1];
      }
  }

  lemma {:induction false} ReadPrintItems(items: seq<Json>, rest: string)
    requires items != []
    ensures ReadItems(PrintItems(items) + ("]" + rest)) == Some((items, rest))
    ensures PrintItems(items) != "" && PrintItems(items)[0] !in {']', '}', ','}
    decreases items, 1
  {
    hide Read, Print, NoNumberFirst, ReadItems;
    if |items| == 1 {
      DelimiterEndsNumber(rest);
      ReadPrint(items[0], "]" + rest);
      assert items == [items[0]];
      ReadItemsLast(Print(items[0]), items[0], rest);
    } else {
      var tail := PrintItems(items[1..]) + ("]" + rest);
      ReadPrintItems(items[1..], rest);
      DelimiterEndsNumber(tail);
      ReadPrint(items[0], "," + tail);
      assert PrintItems(items) + ("]" + rest) == Print(items[0]) + ("," + tail);
      assert items == [items[0]] + items[1..];
      ReadItemsMore(Print(items[0]), items[0], tail, items[1..], rest);
    }
  }

  lemma ReadItemsLast(text: string, j: Json, rest: string)
    requires Read(text + ("]" + rest)) == Some((j, "]" + rest))
    ensures ReadItems(text + ("]" + rest)) == Some(([j], rest))
  {
    assert ("]" + rest)[1..] == rest;
  }

  lemma ReadItemsMore(text: string, j: Json, more: string, js: seq<Json>, after: string)
    requires Read(text + ("," + more)) == Some((j, "," + more)) && ReadItems(more) == Some((js, after))
    ensures ReadItems(text + ("," + more)) == Some(([j] + js, after))
  {
    assert ("," + more)[1..] == more;
  }

  lemma {:induction false} ReadPrintField(field: (string, Json), rest: string)
    requires NoNumberFirst(rest)
    ensures ReadField(PrintField(field) + rest) == Some((field, rest))
    ensures PrintField(field) != "" && PrintField(field)[0] == '"'
    decreases field, 1
  {
    hide Read, Print, ReadString, CanonStr;
    var tail := Print(field.1) + rest;
    ReadPrint(field.1, rest);
    ReadCanonStr(field.0, ":" + tail);
    assert PrintField(field) + rest == CanonStr(field.0) + (":" + tail);
    assert (":" + tail)[1..] == tail;
  }

  lemma {:induction false} ReadPrintFields(fields: seq<(string, Json)>, rest: string)
    requires fields != []
    ensures ReadFields(PrintFields(fields) + ("}" + rest)) == Some((fields, rest))
    ensures PrintFields(fields) != "" && PrintFields(fields)[0] == '"'
    decreases fields, 2
  {
    hide Read, Print, ReadField, PrintField, NoNumberFirst, ReadFields;
    if |fields| == 1 {
      DelimiterEndsNumber(rest);
      ReadPrintField(fields[0], "}" + rest);
      assert fields == [fields[0]];
      ReadFieldsLast(PrintField(fields[0]), fields[0], rest);
    } else {
      var tail := PrintFields(fields[1..]) + ("}" + rest);
      ReadPrintFields(fields[1..], rest);
      DelimiterEndsNumber(tail);
      ReadPrintField(fields[0], "," + tail);
      assert PrintFields(fields) + ("}" + rest) == PrintField(fields[0]) + ("," + tail);
      assert fields == [fields[0]] + fields[1..];
      ReadFieldsMore(PrintField(fields[0]), fields[0], tail, fields[1..], rest);
    }
  }

  lemma ReadFieldsLast(text: string, field: (string, Json), rest: string)
    requires ReadField(text + ("}" + rest)) == Some((field, "}" + rest))
    ensures ReadFields(text + ("}" + rest)) == Some(([field], rest))
  {
    assert ("}" + rest)[1..] == rest;
  }

  lemma ReadFieldsMore(text: string, field: (string, Json), more: string, fs: seq<(string, Json)>, after: string)
    requires ReadField(text + ("," + more)) == Some((field, "," + more)) && ReadFields(more) == Some((fs, after))
    ensures ReadFields(text + ("," + more)) == Some(([field] + fs, after))
  {
    assert ("," + more)[1..] == more;
  }

  /** The canonical text determines the value, up to what `Normal` forgets. */
  lemma CanonDecodes(v: Value, w: Value)
    ensures Canon(v) == Canon(w) <==> Normal(v) == Normal(w)
  {
    ReadPrint(Normal(v), "");
    ReadPrint(Normal(w), "");
    assert Canon(v) + "" == Canon(v) && Canon(w) + "" == Canon(w);
  }

  // ---- Equal texts are equal values ---------------------------------------

  /** Dictionaries hold each key once. */
  predicate DistinctKeys<V>(fields: seq<(string, V)>) {
    forall i, j :: 0 <= i < j < |fields| ==> fields[i].0 != fields[j].0
  }

  predicate WellFormed(v: Value) {
    match v
    case Arr(items) => forall i :: 0 <= i < |items| ==> WellFormed(items[i])
    case Obj(fields) => DistinctKeys(fields) && forall i :: 0 <= i < |fields| ==> WellFormedField(fields[i])
    case _ => true
  }

  predicate WellFormedField(field: (string, Value)) {
    WellFormed(field.1)
  }

  /** The position of `key`, or the number of fields when it is absent. */
  function IndexOf<V>(fields: seq<(string, V)>, key: string): (i: nat)
    ensures i <= |fields|
    ensures i < |fields| ==> fields[i].0 == key
    ensures forall k :: 0 <= k < i ==> fields[k].0 != key
  {
    if fields == [] || fields[0].0 == key then 0 else 1 + IndexOf(fields[1..], key)
  }

  /** Equality that ignores the order of keys and whether a whole number is a
      float. */
  predicate Same(v: Value, w: Value) {
    match v
    case Null => w == Null
    case Bool(b) => w == Bool(b)
    case Int(n) => w == Int(n) || w == Whole(n)
    case Whole(n) => w == Int(n) || w == Whole(n)
    case Frac(repr) => w == Frac(repr)
    case NonFinite(special) => w == NonFinite(special)
    case Str(s) => w == Str(s)
    case Arr(items) => w.Arr? && SameItems(items, w.items)
    case Obj(fields) => w.Obj? && KeysWithin(w.fields, fields) && SameFields(fields, w.fields)
  }

  predicate SameItems(items: seq<Value>, others: seq<Value>) {
    if items == [] then others == []
    else others != [] && Same(items[0], others[0]) && SameItems(items[1..], others[1..])
  }

  predicate SameField(field: (string, Value), other: (string, Value)) {
    field.0 == other.0 && Same(field.1, other.1)
  }

  /** Every key of the first dictionary is found in the second, with the same value. */
  predicate SameFields(fields: seq<(string, Value)>, others: seq<(string, Value)>) {
    fields != [] ==>
      var j := IndexOf(others, fields[0].0);
      j < |others| && SameField(fields[0], others[j]) && SameFields(fields[1..], others)
  }

  predicate KeysWithin<V>(fields: seq<(string, V)>, others: seq<(string, V)>) {
    fields != [] ==> IndexOf(others, fields[0].0) < |others| && KeysWithin(fields[1..], others)
  }

  predicate Ascending(fields: seq<(string, Json)>) {
    forall i, j :: 0 <= i < j < |fields| ==> Less(fields[i].0, fields[j].0)
  }

  lemma {:induction false} InsertSorts(field: (string, Json), fields: seq<(string, Json)>)
    requires Ascending(fields)
    requires forall i :: 0 <= i < |fields| ==> fields[i].0 != field.0
    ensures Ascending(Insert(field, fields))
    ensures forall f :: f in Insert(field, fields) <==> f == field || f in fields
  {
    if fields == [] {
    } else if Less(field.0, fields[0].0) {
      forall i | 1 <= i < |fields|
        ensures Less(field.0, fields[i].0)
      {
        LessIsTransitive(field.0, fields[0].0, fields[i].0);
      }
    } else {
      LessIsTotal(field.0, fields[0].0);
      InsertSorts(field, fields[1..]);
      var rest := Insert(field, fields[1..]);
      forall i | 0 <= i < |rest|
        ensures Less(fields[0].0, rest[i].0)
      {
        assert rest[i] in rest;
        assert rest[i] == field || rest[i] in fields[1..];
      }
      assert fields == [fields[0]] + fields[1..];
    }
  }

  lemma {:induction false} SortSorts(fields: seq<(string, Json)>)
    requires DistinctKeys(fields)
    ensures Ascending(Sort(fields))
    ensures forall f :: f in Sort(fields) <==> f in fields
  {
    if fields != [] {
      SortSorts(fields[1..]);
      var rest := Sort(fields[1..]);
      forall i | 0 <= i < |rest|
        ensures rest[i].0 != fields[0].0
      {
        assert rest[i] in rest;
        assert rest[i] in fields[1..];
      }
      InsertSorts(fields[0], rest);
      assert fields == [fields[0]] + fields[1..];
    }
  }

  lemma {:induction false} AscendingUnique(a: seq<(string, Json)>, b: seq<(string, Json)>)
    requires Ascending(a) && Ascending(b)
    requires forall f :: f in a <==> f in b
    ensures a == b
  {
    if a == [] {
      NoMembers(b);
    } else {
      assert a[0] in a;
      assert b != [];
      assert b[0] in b;
      HeadsAgree(a, b);
      forall f
        ensures f in a[1..] <==> f in b[1..]
      {
        TailMembers(a, f);
        TailMembers(b, f);
      }
      AscendingUnique(a[1..], b[1..]);
    }
  }

  lemma NoMembers(a: seq<(string, Json)>)
    ensures a == [] <==> forall f :: f !in a
  {
    if a != [] {
      assert a[0] in a;
    }
  }

  lemma HeadsAgree(a: seq<(string, Json)>, b: seq<(string, Json)>)
    requires Ascending(a) && Ascending(b) && a != [] && b != []
    requires a[0] in b && b[0] in a
    ensures a[0] == b[0]
  {
    LessIsTotal(a[0].0, b[0].0);
  }

  lemma TailMembers(a: seq<(string, Json)>, f: (string, Json))
    requires Ascending(a) && a != []
    ensures f in a[1..] <==> f in a && f != a[0]
  {
    LessIsTotal(a[0].0, a[0].0);
    assert a == [a[0]] + a[1..];
    if f in a[1..] {
      var i :| 0 <= i < |a[1..]| && a[1..][i] == f;
      assert Less(a[0].0, a[i + 1].0);
    }
  }

  lemma NormalFieldsDistinct(fields: seq<(string, Value)>)
    requires DistinctKeys(fields)
    ensures DistinctKeys(NormalFields(fields))
  {
  }

  /** `Normal` forgets exactly what `Same` ignores. */
  lemma {:induction false} NormalIffSame(v: Value, w: Value)
    requires WellFormed(v) && WellFormed(w)
    ensures Normal(v) == Normal(w) <==> Same(v, w)
    decreases v
  {
    match v
    case Arr(items) =>
      if w.Arr? {
        NormalItemsIffSame(items, w.items);
      }
    case Obj(fields) =>
      if w.Obj? {
        NormalFieldsWithin(fields, w.fields);
        NormalFieldsIffSame(fields, w.fields);
      }
    case _ =>
  }

  lemma {:induction false} NormalItemsIffSame(items: seq<Value>, others: seq<Value>)
    requires forall i :: 0 <= i < |items| ==> WellFormed(items[i])
    requires forall i :: 0 <= i < |others| ==> WellFormed(others[i])
    ensures NormalItems(items) == NormalItems(others) <==> SameItems(items, others)
    decreases items
  {
    if items != [] && others != [] {
      NormalIffSame(items[0], others[0]);
      NormalItemsIffSame(items[1..], others[1..]);
      var a, b := NormalItems(items), NormalItems(others);
      assert a == [a[0]] + a[1..] && b == [b[0]] + b[1..];
      assert a[1..] == NormalItems(items[1..]) && b[1..] == NormalItems(others[1..]);
    }
  }

  lemma {:induction false} NormalFieldIffSame(field: (string, Value), other: (string, Value))
    requires WellFormedField(field) && WellFormedField(other)
    ensures NormalField(field) == NormalField(other) <==> SameField(field, other)
    decreases field
  {
    NormalIffSame(field.1, other.1);
  }

  /** The entries of one dictionary, looked up by key in another. */
  predicate Within(a: seq<(string, Json)>, b: seq<(string, Json)>) {
    a != [] ==>
      var j := IndexOf(b, a[0].0);
      j < |b| && a[0] == b[j] && Within(a[1..], b)
  }

  lemma {:induction false} NormalFieldsWithin(fields: seq<(string, Value)>, others: seq<(string, Value)>)
    requires forall i :: 0 <= i < |fields| ==> WellFormedField(fields[i])
    requires forall i :: 0 <= i < |others| ==> WellFormedField(others[i])
    ensures Within(NormalFields(fields), NormalFields(others)) <==> SameFields(fields, others)
    decreases fields
  {
    hide NormalField, SameField;
    if fields != [] {
      var a, b := NormalFields(fields), NormalFields(others);
      NormalFieldsWithin(fields[1..], others);
      assert a[1..] == NormalFields(fields[1..]);
      NormalFieldsKeys(others, fields[0].0);
      NormalFieldKey(fields[0]);
      var j := IndexOf(others, fields[0].0);
      if j < |others| {
        NormalFieldIffSame(fields[0], others[j]);
      }
    }
  }

  lemma NormalFieldKey(field: (string, Value))
    ensures NormalField(field).0 == field.0
  {
  }

  lemma {:induction false} NormalFieldsKeys(fields: seq<(string, Value)>, key: string)
    ensures IndexOf(NormalFields(fields), key) == IndexOf(fields, key)
  {
    if fields != [] {
      NormalFieldsKeys(fields[1..], key);
    }
  }

  lemma {:induction false} NormalKeysWithin(fields: seq<(string, Value)>, others: seq<(string, Value)>)
    ensures KeysWithin(NormalFields(fields), NormalFields(others)) <==> KeysWithin(fields, others)
  {
    if fields != [] {
      NormalKeysWithin(fields[1..], others);
      NormalFieldsKeys(others, fields[0].0);
      assert NormalFields(fields)[1..] == NormalFields(fields[1..]);
    }
  }

  lemma NormalFieldsIffSame(fields: seq<(string, Value)>, others: seq<(string, Value)>)
    requires DistinctKeys(fields) && DistinctKeys(others)
    requires Within(NormalFields(fields), NormalFields(others)) <==> SameFields(fields, others)
    ensures Sort(NormalFields(fields)) == Sort(NormalFields(others)) <==>
            KeysWithin(others, fields) && SameFields(fields, others)
  {
    hide Sort, NormalFields, SameFields, KeysWithin, Within;
    NormalFieldsDistinct(fields);
    NormalFieldsDistinct(others);
    SortsAlikeIff(NormalFields(fields), NormalFields(others));
    NormalKeysWithin(others, fields);
    SameMembersIff(NormalFields(fields), NormalFields(others));
  }

  lemma {:induction false} WithinIff(a: seq<(string, Json)>, b: seq<(string, Json)>)
    requires DistinctKeys(b)
    ensures Within(a, b) <==> forall f :: f in a ==> f in b
  {
    if a != [] {
      WithinIff(a[1..], b);
      MemberIff(b, a[0]);
      assert a == [a[0]] + a[1..];
    }
  }

  lemma {:induction false} KeysWithinIff(a: seq<(string, Json)>, b: seq<(string, Json)>)
    ensures KeysWithin(a, b) <==> forall f :: f in a ==> IndexOf(b, f.0) < |b|
  {
    if a != [] {
      KeysWithinIff(a[1..], b);
      assert a == [a[0]] + a[1..];
    }
  }

  lemma MemberIff(a: seq<(string, Json)>, f: (string, Json))
    requires DistinctKeys(a)
    ensures f in a <==> IndexOf(a, f.0) < |a| && a[IndexOf(a, f.0)] == f
  {
  }

  /** Dictionaries with the same entries, looked up by key. */
  lemma SameMembersIff(a: seq<(string, Json)>, b: seq<(string, Json)>)
    requires DistinctKeys(a) && DistinctKeys(b)
    ensures (forall f :: f in a <==> f in b) <==> KeysWithin(b, a) && Within(a, b)
  {
    hide KeysWithin, Within;
    WithinIff(a, b);
    KeysWithinIff(b, a);
    if forall f :: f in a <==> f in b {
      forall f | f in b
        ensures IndexOf(a, f.0) < |a|
      {
        MemberIff(a, f);
      }
    }
    if (forall f :: f in b ==> IndexOf(a, f.0) < |a|) && forall f :: f in a ==> f in b {
      forall f | f in b
        ensures f in a
      {
        var g := a[IndexOf(a, f.0)];
        assert g in a && g in b;
        MemberIff(b, f);
        MemberIff(b, g);
      }
    }
  }

  lemma SortsAlikeIff(a: seq<(string, Json)>, b: seq<(string, Json)>)
    requires DistinctKeys(a) && DistinctKeys(b)
    ensures Sort(a) == Sort(b) <==> forall f :: f in a <==> f in b
  {
    SortSorts(a);
    SortSorts(b);
    if forall f :: f in a <==> f in b {
      AscendingUnique(Sort(a), Sort(b));
    }
  }

  /** Two values have the same canonical text exactly when they are the same
      value, whatever order their dictionaries were filled in. */
  lemma CanonIffSame(v: Value, w: Value)
    requires WellFormed(v) && WellFormed(w)
    ensures Canon(v) == Canon(w) <==> Same(v, w)
  {
    CanonDecodes(v, w);
    NormalIffSame(v, w);
  }

  lemma {:induction false} WithoutMembers(frame: Frame, key: string)
    ensures forall f :: f in Without(frame, key) <==> f in frame && f.0 != key
    ensures DistinctKeys(frame) ==> DistinctKeys(Without(frame, key))
  {
    if frame != [] {
      WithoutMembers(frame[1..], key);
      assert frame == [frame[0]] + frame[1..];
    }
  }

  lemma WithoutWellFormed(frame: Frame, key: string)
    requires WellFormed(Obj(frame))
    ensures WellFormed(Obj(Without(frame, key)))
  {
    WithoutMembers(frame, key);
    var rest := Without(frame, key);
    forall i | 0 <= i < |rest|
      ensures WellFormedField(rest[i])
    {
      assert rest[i] in rest && rest[i] in frame;
    }
  }

  /** Frames with equal canonical text are equal apart from `mac`. */
  lemma FramesWithEqualText(f: Frame, g: Frame)
    requires WellFormed(Obj(f)) && WellFormed(Obj(g))
    ensures CanonicalText(f) == CanonicalText(g) <==> Same(Obj(Without(f, "mac")), Obj(Without(g, "mac")))
  {
    WithoutWellFormed(f, "mac");
    WithoutWellFormed(g, "mac");
    CanonIffSame(Obj(Without(f, "mac")), Obj(Without(g, "mac")));
  }

  // ---- The printer as it is written, with its append loops ----------------

  lemma {:induction false} EscapeAllAppends(s: string, c: char)
    ensures EscapeAll(s + [c]) == EscapeAll(s) + Escape(c)
  {
    if s == "" {
      assert s + [c] == [c];
      assert EscapeAll([c]) == Escape(c) + EscapeAll([c][1..]);
    } else {
      assert (s + [c])[1..] == s[1..] + [c];
      EscapeAllAppends(s[1..], c);
    }
  }

  method QuoteString(s: string) returns (out: string)
    ensures out == CanonStr(s)
  {
    hide Escape;
    out := "\"";
    for i := 0 to |s|
      invariant out == "\"" + EscapeAll(s[..i])
    {
      EscapeAllAppends(s[..i], s[i]);
      assert s[..i] + [s[i]] == s[..i + 1];
      out := out + Escape(s[i]);
    }
    assert s[..|s|] == s;
    out := out + "\"";
  }

  function Comma(parts: seq<string>): string {
    if parts == [] then ""
    else if |parts| == 1 then parts[0]
    else parts[0] + "," + Comma(parts[1..])
  }

  function InsertKey(key: string, keys: seq<string>): (r: seq<string>)
    ensures |r| == |keys| + 1
  {
    if keys == [] || Less(key, keys[0]) then [key] + keys else [keys[0]] + InsertKey(key, keys[1..])
  }

  /** `sorted(value)`: the keys of a dictionary in ascending order. */
  function SortedKeys(fields: seq<(string, Value)>): (r: seq<string>)
    ensures |r| == |fields|
  {
    if fields == [] then [] else InsertKey(fields[0].0, SortedKeys(fields[1..]))
  }

  function KeysOf(fields: seq<(string, Json)>): (r: seq<string>)
    ensures |r| == |fields|
    ensures forall i :: 0 <= i < |fields| ==> r[i] == fields[i].0
  {
    if fields == [] then [] else [fields[0].0] + KeysOf(fields[1..])
  }

  lemma {:induction false} InsertKeyOf(field: (string, Json), fields: seq<(string, Json)>)
    ensures KeysOf(Insert(field, fields)) == InsertKey(field.0, KeysOf(fields))
  {
    if fields != [] {
      InsertKeyOf(field, fields[1..]);
      assert KeysOf(fields)[1..] == KeysOf(fields[1..]);
    }
  }

  lemma {:induction false} SortedKeysAre(fields: seq<(string, Value)>)
    ensures KeysOf(Sort(NormalFields(fields))) == SortedKeys(fields)
  {
    if fields != [] {
      SortedKeysAre(fields[1..]);
      var a := NormalFields(fields);
      assert a[1..] == NormalFields(fields[1..]);
      InsertKeyOf(a[0], Sort(a[1..]));
    }
  }

  /** The `i`th entry in key order is found by looking its key up. */
  lemma LookupSorted(fields: seq<(string, Value)>, i: nat)
    requires DistinctKeys(fields) && i < |fields|
    ensures |Sort(NormalFields(fields))| == |fields|
    ensures var k := SortedKeys(fields)[i];
            IndexOf(fields, k) < |fields|
            && Sort(NormalFields(fields))[i] == (k, Normal(fields[IndexOf(fields, k)].1))
  {
    var a := NormalFields(fields);
    NormalFieldsDistinct(fields);
    SortSorts(a);
    SortedKeysAre(fields);
    var f := Sort(a)[i];
    assert f in Sort(a) && f in a;
    MemberIff(a, f);
    NormalFieldsKeys(fields, f.0);
  }

  lemma {:induction false} PrintFieldsIsComma(fields: seq<(string, Json)>, parts: seq<string>)
    requires |parts| == |fields| && forall i :: 0 <= i < |fields| ==> parts[i] == PrintField(fields[i])
    ensures PrintFields(fields) == Comma(parts)
  {
    hide PrintField;
    if |fields| > 1 {
      PrintFieldsIsComma(fields[1..], parts[1..]);
    }
  }

  lemma {:induction false} PrintItemsIsComma(items: seq<Json>, parts: seq<string>)
    requires |parts| == |items| && forall i :: 0 <= i < |items| ==> parts[i] == Print(items[i])
    ensures PrintItems(items) == Comma(parts)
  {
    hide Print;
    if |items| > 1 {
      PrintItemsIsComma(items[1..], parts[1..]);
    }
  }

  method Canonicalize(v: Value) returns (text: string)
    requires WellFormed(v)
    ensures text == Canon(v)
    decreases v
  {
    hide Decimal, CanonStr, SpecialText, Sort, PrintFields, PrintItems, Comma, NormalFields, IsFraction;
    match v
    case Null => text := "null";
    case Bool(b) => text := if b then "true" else "false";
    case Str(s) => text := QuoteString(s);
    case Int(n) => text := Decimal(n);
    case Whole(n) => text := Decimal(n);
    case Frac(repr) => text := repr;
    case NonFinite(special) => text := SpecialText(special);
    case Obj(fields) =>
      var parts := CanonicalizeFields(fields);
      PrintFieldsIsComma(Sort(NormalFields(fields)), parts);
      text := "{" + Comma(parts) + "}";
    case Arr(items) =>
      var parts: seq<string> := [];
      for i := 0 to |items|
        invariant |parts| == i
        invariant forall j :: 0 <= j < i ==> parts[j] == Canon(items[j])
      {
        var part := Canonicalize(items[i]);
        parts := parts + [part];
      }
      PrintItemsIsComma(NormalItems(items), parts);
      text := "[" + Comma(parts) + "]";
  }

  method CanonicalizeFields(fields: seq<(string, Value)>) returns (parts: seq<string>)
    requires DistinctKeys(fields) && forall i :: 0 <= i < |fields| ==> WellFormedField(fields[i])
    ensures |parts| == |Sort(NormalFields(fields))|
    ensures forall i :: 0 <= i < |parts| ==> parts[i] == PrintField(Sort(NormalFields(fields))[i])
    decreases fields
  {
    hide Sort, Print, CanonStr, NormalFields;
    var keys := SortedKeys(fields);
    ghost var sorted := Sort(NormalFields(fields));
    SortedKeysAre(fields);
    parts := [];
    for i := 0 to |keys|
      invariant |parts| == i
      invariant |sorted| == |fields|
      invariant forall j :: 0 <= j < i ==> parts[j] == PrintField(sorted[j])
    {
      LookupSorted(fields, i);
      var k := keys[i];
      var field := fields[IndexOf(fields, k)];
      var key := QuoteString(k);
      var value := CanonicalizeField(field);
      parts := parts + [key + ":" + value];
    }
  }

  method CanonicalizeField(field: (string, Value)) returns (text: string)
    requires WellFormedField(field)
    ensures text == Canon(field.1)
    decreases field
  {
    text := Canonicalize(field.1);
  }

  // ---- What the order and the texts are -----------------------------------

  /** At the first position where the two differ, or where the first one ends, the
      first has the lower character, or none. */
  predicate PrecedesAt(a: string, b: string, k: nat) {
    k <= |a| && k < |b| && a[..k] == b[..k] && (k == |a| || a[k] < b[k])
  }

  ghost predicate Precedes(a: string, b: string) {
    exists k: nat :: PrecedesAt(a, b, k)
  }

  lemma {:induction false} LessIff(a: string, b: string)
    ensures Less(a, b) <==> Precedes(a, b)
  {
    if a != "" && b != "" && a[0] == b[0] {
      LessIff(a[1..], b[1..]);
      assert a == [a[0]] + a[1..] && b == [b[0]] + b[1..];
      if Precedes(a[1..], b[1..]) {
        var k: nat :| PrecedesAt(a[1..], b[1..], k);
        assert a[..k + 1] == [a[0]] + a[1..][..k] && b[..k + 1] == [b[0]] + b[1..][..k];
        assert PrecedesAt(a, b, k + 1);
      }
      if Precedes(a, b) {
        var k: nat :| PrecedesAt(a, b, k);
        assert k > 0;
        assert a[..k][1..] == a[1..][..k - 1] && b[..k][1..] == b[1..][..k - 1];
        assert PrecedesAt(a[1..], b[1..], k - 1);
      }
    } else if b != "" {
      LessAtOnce(a, b);
    }
  }

  lemma LessAtOnce(a: string, b: string)
    requires b != "" && (a == "" || a[0] != b[0])
    ensures (a == "" || a[0] < b[0]) <==> Precedes(a, b)
  {
    if a == "" || a[0] < b[0] {
      assert a[..0] == b[..0];
      assert PrecedesAt(a, b, 0);
    }
    if Precedes(a, b) {
      var k: nat :| PrecedesAt(a, b, k);
      if k > 0 {
        PrefixesDiffer(a, b, k);
        assert false;
      }
    }
  }

  lemma PrefixesDiffer(a: string, b: string, k: nat)
    requires 0 < k <= |a| && k <= |b| && a[0] != b[0]
    ensures a[..k] != b[..k]
  {
    assert a[..k][0] != b[..k][0];
  }

  /** The keys of a dictionary, as a loop over its sorted keys meets them. */
  lemma SortedKeysAscend(fields: seq<(string, Value)>)
    requires DistinctKeys(fields)
    ensures var keys := SortedKeys(fields);
            && (forall i, j :: 0 <= i < j < |keys| ==> Precedes(keys[i], keys[j]))
            && |keys| == |fields|
            && forall i :: 0 <= i < |keys| ==> IndexOf(fields, keys[i]) < |fields|
  {
    var sorted, keys := Sort(NormalFields(fields)), SortedKeys(fields);
    NormalFieldsDistinct(fields);
    SortSorts(NormalFields(fields));
    SortedKeysAre(fields);
    forall i, j | 0 <= i < j < |keys|
      ensures Precedes(keys[i], keys[j])
    {
      assert Less(sorted[i].0, sorted[j].0);
      LessIff(keys[i], keys[j]);
    }
    forall i | 0 <= i < |keys|
      ensures IndexOf(fields, keys[i]) < |fields|
    {
      LookupSorted(fields, i);
    }
  }

  /** What a reader of the canonical text of a dictionary finds: its entries, with
      their keys in ascending order. */
  lemma ReadsAscending(fields: seq<(string, Value)>)
    requires DistinctKeys(fields)
    ensures var r := Read(Canon(Obj(fields)));
            && r.Some? && r.value.0.JObj? && r.value.1 == ""
            && (forall i, j :: 0 <= i < j < |r.value.0.fields| ==> Precedes(r.value.0.fields[i].0, r.value.0.fields[j].0))
            && forall f :: f in r.value.0.fields <==> f in NormalFields(fields)
  {
    var sorted := Sort(NormalFields(fields));
    ReadPrint(JObj(sorted), "");
    assert Canon(Obj(fields)) + "" == Canon(Obj(fields));
    NormalFieldsDistinct(fields);
    SortSorts(NormalFields(fields));
    forall i, j | 0 <= i < j < |sorted|
      ensures Precedes(sorted[i].0, sorted[j].0)
    {
      LessIff(sorted[i].0, sorted[j].0);
    }
  }

  lemma EscapeTable(c: char)
    ensures Escape(c) ==
            if c == '"' then ['\\', '"']
            else if c == '\\' then ['\\', '\\']
            else if c as int == 10 then ['\\', 'n']
            else if c as int == 13 then ['\\', 'r']
            else if c as int == 9 then ['\\', 't']
            else if c as int < 16 then ['\\', 'u', '0', '0', '0', "0123456789abcdef"[c as int]]
            else if c as int < 32 then ['\\', 'u', '0', '0', '1', "0123456789abcdef"[c as int - 16]]
            else [c]
  {
  }

  /** A sign for negative numbers only, and no leading zero. */
  lemma {:induction false} DigitsAreShort(n: nat)
    ensures n > 0 ==> Digits(n)[0] != '0'
    ensures n == 0 ==> Digits(n) == "0"
  {
    if n >= 10 {
      DigitsAreShort(n / 10);
    }
  }

  lemma DecimalMeans(n: int)
    ensures Decimal(n) == if n < 0 then ['-'] + Digits(-n) else Digits(n)
    ensures var digits := Digits(if n < 0 then -n else n);
            && ValueOf(digits) == (if n < 0 then -n else n)
            && (digits == "0" || digits[0] != '0')
  {
    ValueOfDigits(if n < 0 then -n else n);
    DigitsAreShort(if n < 0 then -n else n);
  }

  lemma PrintTable(b: bool, special: Special)
    ensures Print(JNull) == "null" && Print(JBool(b)) == (if b then "true" else "false")
    ensures Print(JArr([])) == "[]" && Print(JObj([])) == "{}"
    ensures SpecialText(Infinity) == "inf" && SpecialText(MinusInfinity) == "-inf" && SpecialText(NotANumber) == "nan"
  {
  }

  /** Lists and dictionaries are written without any space. */
  lemma ItemsJoin(j: Json, items: seq<Json>)
    ensures Print(JArr(items)) == "[" + PrintItems(items) + "]"
    ensures PrintItems([]) == ""
    ensures PrintItems([j] + items) == if items == [] then Print(j) else Print(j) + "," + PrintItems(items)
  {
    assert ([j] + items)[1..] == items;
  }

  lemma FieldsJoin(key: string, j: Json, fields: seq<(string, Json)>)
    ensures Print(JObj(fields)) == "{" + PrintFields(fields) + "}"
    ensures PrintFields([]) == ""
    ensures PrintFields([(key, j)] + fields) ==
            if fields == [] then CanonStr(key) + ":" + Print(j)
            else CanonStr(key) + ":" + Print(j) + "," + PrintFields(fields)
    ensures CanonStr(key) == "\"" + EscapeAll(key) + "\""
  {
    assert ([(key, j)] + fields)[1..] == fields;
  }

  /** Two keys come out in ascending order, whichever was put in first. */
  lemma TwoKeys(m: int, n: int)
    ensures Normal(Obj([("b", Int(n)), ("a", Int(m))])) == JObj([("a", JNum(m)), ("b", JNum(n))])
    ensures Normal(Obj([("a", Int(m)), ("b", Int(n))])) == JObj([("a", JNum(m)), ("b", JNum(n))])
  {
    var a, b := ("a", JNum(m)), ("b", JNum(n));
    TwoFields(("b", Int(n)), ("a", Int(m)));
    TwoFields(("a", Int(m)), ("b", Int(n)));
    assert Less("a", "b") && !Less("b", "a");
    SortTwo(a, b);
    SortTwo(b, a);
  }

  lemma TwoFields(x: (string, Value), y: (string, Value))
    ensures NormalFields([x, y]) == [NormalField(x), NormalField(y)]
  {
  }

  lemma SortTwo(x: (string, Json), y: (string, Json))
    ensures Sort([x, y]) == if Less(x.0, y.0) then [x, y] else [y, x]
  {
    assert [x, y][1..] == [y] && [y][1..] == [];
    assert Sort([y]) == [y];
    assert [y] + Insert(x, []) == [y, x];
  }
}
