/** JSON values and the text `JSON.stringify` prints for them; the parser that reads the text back shows
    that nothing is lost in it. */
module JsonText {
  import opened Texts
  import opened Encoding

  predicate IsNumberUnit(u: Unit) {
    IsDigit(u) || u == MINUS || u == DOT || u == '+' as int || u == 'e' as int
  }

  predicate IsNumberText(t: Text) {
    && t != []
    && (IsDigit(t[0]) || t[0] == MINUS)
    && forall i :: 0 <= i < |t| ==> IsNumberUnit(t[i])
  }

  type Numeral = t: Text | IsNumberText(t) witness [ZERO]

  /** A JSON value whose objects keep the order in which their own keys are enumerated.
      A number is carried by the text `Number::toString` gives it: two finite numbers are the same
      number exactly when these texts are equal (-0 prints as 0, so it is the number 0 here). */
  datatype Json =
    | Null
    | Bool(b: bool)
    | Num(digits: Numeral)
    | Str(s: Text)
    | Arr(items: seq<Json>)
    | Obj(props: seq<Prop>)

  datatype Prop = Prop(key: Text, value: Json)

  const LBRACKET: Unit := '[' as int
  const RBRACKET: Unit := ']' as int
  const LBRACE: Unit := '{' as int
  const RBRACE: Unit := '}' as int
  const NULL_TEXT: Text := ['n' as int, 'u' as int, 'l' as int, 'l' as int]
  const TRUE_TEXT: Text := ['t' as int, 'r' as int, 'u' as int, 'e' as int]
  const FALSE_TEXT: Text := ['f' as int, 'a' as int, 'l' as int, 's' as int, 'e' as int]

  predicate DistinctKeys(props: seq<Prop>) {
    forall i, j :: 0 <= i < j < |props| ==> props[i].key != props[j].key
  }

  predicate WellFormed(v: Json) {
    match v
    case Arr(items) => forall i :: 0 <= i < |items| ==> WellFormed(items[i])
    case Obj(props) => DistinctKeys(props) && forall i :: 0 <= i < |props| ==> WellFormed(props[i].value)
    case _ => true
  }

  predicate WellFormedProps(props: seq<Prop>) {
    DistinctKeys(props) && forall i :: 0 <= i < |props| ==> WellFormed(props[i].value)
  }

  // ----- printing (section 7 of RFC 8259 for strings) -----

  function HexDigit(d: int): Unit
    requires 0 <= d < 16
  {
    if d < 10 then ZERO + d else 'a' as int + d - 10
  }

  function Hex4(u: Unit): Text {
    [HexDigit(u / 4096), HexDigit(u / 256 % 16), HexDigit(u / 16 % 16), HexDigit(u % 16)]
  }

  function EscapeUnit(u: Unit): Text {
    if u == QUOTE || u == BACKSLASH then [BACKSLASH, u]
    else if u == 8 then [BACKSLASH, 'b' as int]
    else if u == 9 then [BACKSLASH, 't' as int]
    else if u == 10 then [BACKSLASH, 'n' as int]
    else if u == 12 then [BACKSLASH, 'f' as int]
    else if u == 13 then [BACKSLASH, 'r' as int]
    else if u < 0x20 || IsHigh(u) || IsLow(u) then [BACKSLASH, 'u' as int] + Hex4(u)
    else [u]
  }

  /** A surrogate pair is printed as it stands; a lone surrogate is escaped. */
  function Escape(s: Text): Text {
    if s == [] then []
    else if |s| > 1 && IsHigh(s[0]) && IsLow(s[1]) then s[..2] + Escape(s[2..])
    else EscapeUnit(s[0]) + Escape(s[1..])
  }

  function PrintString(s: Text): Text {
    [QUOTE] + Escape(s) + [QUOTE]
  }

  /** `JSON.stringify(v)`. */
  function Print(v: Json): Text
    decreases v, 1
  {
    match v
    case Null => NULL_TEXT
    case Bool(b) => if b then TRUE_TEXT else FALSE_TEXT
    case Num(t) => t
    case Str(s) => PrintString(s)
    case Arr(items) => [LBRACKET] + PrintItems(items) + [RBRACKET]
    case Obj(props) => [LBRACE] + PrintProps(props) + [RBRACE]
  }

  function PrintItems(items: seq<Json>): Text
    decreases items, 0
  {
    if items == [] then []
    else if |items| == 1 then Print(items[0])
    else Print(items[0]) + [COMMA] + PrintItems(items[1..])
  }

  function PrintProp(p: Prop): Text
    decreases p, 0
  {
    PrintString(p.key) + [COLON] + Print(p.value)
  }

  function PrintProps(props: seq<Prop>): Text
    decreases props, 0
  {
    if props == [] then []
    else if |props| == 1 then PrintProp(props[0])
    else PrintProp(props[0]) + [COMMA] + PrintProps(props[1..])
  }

  // ----- parsing -----

  /** A parsed value together with the text left unread. */
  datatype Parsed<+T> = Fail | Read(value: T, rest: Text)

  function HexValue(u: Unit): int {
    if IsDigit(u) then u - ZERO
    else if 'a' as int <= u <= 'f' as int then u - 'a' as int + 10
    else -1
  }

  function Unescape(c: Unit): Unit {
    if c == 'b' as int then 8
    else if c == 't' as int then 9
    else if c == 'n' as int then 10
    else if c == 'f' as int then 12
    else if c == 'r' as int then 13
    else c
  }

  function ParseHex4(s: Text): (r: Option<Unit>)
    requires |s| >= 4
  {
    var a, b, c, d := HexValue(s[0]), HexValue(s[1]), HexValue(s[2]), HexValue(s[3]);
    if a < 0 || b < 0 || c < 0 || d < 0 then None else Some(((a * 16 + b) * 16 + c) * 16 + d)
  }

  /** Reads up to and including the closing quote. */
  function ParseString(s: Text): (r: Parsed<Text>)
    ensures r.Read? ==> |r.rest| < |s|
    decreases |s|
  {
    if s == [] then Fail
    else if s[0] == QUOTE then Read([], s[1..])
    else if s[0] != BACKSLASH then
      match ParseString(s[1..])
      case Fail => Fail
      case Read(t, rest) => Read([s[0]] + t, rest)
    else if |s| < 2 then Fail
    else if s[1] == 'u' as int then
      if |s| < 6 || ParseHex4(s[2..]).None? then Fail
      else
        match ParseString(s[6..])
        case Fail => Fail
        case Read(t, rest) => Read([ParseHex4(s[2..]).value] + t, rest)
    else
      match ParseString(s[2..])
      case Fail => Fail
      case Read(t, rest) => Read([Unescape(s[1])] + t, rest)
  }

  function NumberLength(s: Text): (n: nat)
    ensures n <= |s|
    ensures forall i :: 0 <= i < n ==> IsNumberUnit(s[i])
    ensures n < |s| ==> !IsNumberUnit(s[n])
  {
    if s == [] || !IsNumberUnit(s[0]) then 0 else 1 + NumberLength(s[1..])
  }

  function ParseValue(s: Text): (r: Parsed<Json>)
    ensures r.Read? ==> |r.rest| < |s|
    decreases |s|, 2
  {
    if s == [] then Fail
    else if s[0] == QUOTE then
      match ParseString(s[1..])
      case Fail => Fail
      case Read(t, rest) => Read(Str(t), rest)
    else if s[0] == LBRACKET then
      if |s| > 1 && s[1] == RBRACKET then Read(Arr([]), s[2..])
      else
        match ParseItems(s[1..])
        case Fail => Fail
        case Read(items, rest) => Read(Arr(items), rest)
    else if s[0] == LBRACE then
      if |s| > 1 && s[1] == RBRACE then Read(Obj([]), s[2..])
      else
        match ParseProps(s[1..])
        case Fail => Fail
        case Read(props, rest) => Read(Obj(props), rest)
    else if NULL_TEXT <= s then Read(Null, s[4..])
    else if TRUE_TEXT <= s then Read(Bool(true), s[4..])
    else if FALSE_TEXT <= s then Read(Bool(false), s[5..])
    else
      var n := NumberLength(s);
      if n > 0 && IsNumberText(s[..n]) then Read(Num(s[..n]), s[n..]) else Fail
  }

  /** One or more values separated by commas, up to and including the closing bracket. */
  function ParseItems(s: Text): (r: Parsed<seq<Json>>)
    ensures r.Read? ==> |r.rest| < |s|
    decreases |s|, 3
  {
    match ParseValue(s)
    case Fail => Fail
    case Read(v, rest) =>
      if rest != [] && rest[0] == RBRACKET then Read([v], rest[1..])
      else if rest != [] && rest[0] == COMMA then
        match ParseItems(rest[1..])
        case Fail => Fail
        case Read(items, rest') => Read([v] + items, rest')
      else Fail
  }

  function ParseProp(s: Text): (r: Parsed<Prop>)
    ensures r.Read? ==> |r.rest| < |s|
    decreases |s|, 3
  {
    if s == [] || s[0] != QUOTE then Fail
    else
      match ParseString(s[1..])
      case Fail => Fail
      case Read(key, rest) =>
        if rest == [] || rest[0] != COLON then Fail
        else
          match ParseValue(rest[1..])
          case Fail => Fail
          case Read(v, rest') => Read(Prop(key, v), rest')
  }

  function ParseProps(s: Text): (r: Parsed<seq<Prop>>)
    ensures r.Read? ==> |r.rest| < |s|
    decreases |s|, 4
  {
    match ParseProp(s)
    case Fail => Fail
    case Read(p, rest) =>
      if rest != [] && rest[0] == RBRACE then Read([p], rest[1..])
      else if rest != [] && rest[0] == COMMA then
        match ParseProps(rest[1..])
        case Fail => Fail
        case Read(props, rest') => Read([p] + props, rest')
      else Fail
  }

  // ----- the parser inverts the printer -----

  lemma HexDigitRoundTrip(d: int)
    requires 0 <= d < 16
    ensures HexValue(HexDigit(d)) == d
  {
  }

  lemma Hex4Digits(u: Unit)
    ensures u == ((u / 4096 * 16 + u / 256 % 16) * 16 + u / 16 % 16) * 16 + u % 16
  {
    assert u / 256 == u / 16 / 16;
    assert u / 4096 == u / 256 / 16;
  }

  lemma Hex4RoundTrip(u: Unit, rest: Text)
    ensures ParseHex4(Hex4(u) + rest) == Some(u)
  {
    Hex4Digits(u);
    HexDigitRoundTrip(u / 4096);
    HexDigitRoundTrip(u / 256 % 16);
    HexDigitRoundTrip(u / 16 % 16);
    HexDigitRoundTrip(u % 16);
  }

  lemma EscapedUnit(u: Unit, tail: Text)
    requires ParseString(tail).Read?
    ensures ParseString(EscapeUnit(u) + tail)
         == Read([u] + ParseString(tail).value, ParseString(tail).rest)
  {
    if u == QUOTE || u == BACKSLASH || u == 8 || u == 9 || u == 10 || u == 12 || u == 13 {
      ShortEscape(u, tail);
    } else if u < 0x20 || IsHigh(u) || IsLow(u) {
      HexEscape(u, tail);
    } else {
      PlainUnit(u, tail);
    }
    hide ParseString;
  }

  lemma ShortEscape(u: Unit, tail: Text)
    requires u == QUOTE || u == BACKSLASH || u == 8 || u == 9 || u == 10 || u == 12 || u == 13
    requires ParseString(tail).Read?
    ensures ParseString(EscapeUnit(u) + tail)
         == Read([u] + ParseString(tail).value, ParseString(tail).rest)
  {
    assert (EscapeUnit(u) + tail)[2..] == tail;
  }

  lemma HexEscape(u: Unit, tail: Text)
    requires u < 0x20 || IsHigh(u) || IsLow(u)
    requires u !in [8, 9, 10, 12, 13] && ParseString(tail).Read?
    ensures ParseString(EscapeUnit(u) + tail)
         == Read([u] + ParseString(tail).value, ParseString(tail).rest)
  {
    var s := EscapeUnit(u) + tail;
    assert s[2..] == Hex4(u) + tail && s[6..] == tail;
    Hex4RoundTrip(u, tail);
  }

  lemma PlainUnit(u: Unit, tail: Text)
    requires u != QUOTE && u != BACKSLASH
    requires ParseString(tail).Read?
    ensures ParseString([u] + tail) == Read([u] + ParseString(tail).value, ParseString(tail).rest)
  {
    assert ([u] + tail)[1..] == tail;
  }

  lemma PairStep(hi: Unit, lo: Unit, more: Text)
    requires IsHigh(hi) && IsLow(lo) && ParseString(more).Read?
    ensures ParseString([hi, lo] + more) == Read([hi, lo] + ParseString(more).value, ParseString(more).rest)
  {
    PlainUnit(lo, more);
    PlainUnit(hi, [lo] + more);
    assert [hi, lo] + more == [hi] + ([lo] + more);
    var t := ParseString(more).value;
    assert [hi, lo] + t == [hi] + ([lo] + t);
  }

  lemma {:induction false} StringRoundTrip(t: Text, tail: Text)
    requires tail != [] && tail[0] == QUOTE
    ensures ParseString(Escape(t) + tail) == Read(t, tail[1..])
    decreases |t|, 1
  {
    if t == [] {
      assert Escape(t) + tail == tail;
    } else if |t| > 1 && IsHigh(t[0]) && IsLow(t[1]) {
      PairRoundTrip(t, tail);
    } else {
      UnitRoundTrip(t, tail);
    }
  }

  lemma {:induction false} PairRoundTrip(t: Text, tail: Text)
    requires tail != [] && tail[0] == QUOTE
    requires |t| > 1 && IsHigh(t[0]) && IsLow(t[1])
    ensures ParseString(Escape(t) + tail) == Read(t, tail[1..])
    decreases |t|, 0
  {
    hide ParseString;
    StringRoundTrip(t[2..], tail);
    assert Escape(t) == [t[0], t[1]] + Escape(t[2..]);
    hide Escape;
    ConcatAssociative([t[0], t[1]], Escape(t[2..]), tail);
    PairStep(t[0], t[1], Escape(t[2..]) + tail);
    assert t == [t[0], t[1]] + t[2..];
  }

  lemma {:induction false} UnitRoundTrip(t: Text, tail: Text)
    requires tail != [] && tail[0] == QUOTE
    requires t != [] && !(|t| > 1 && IsHigh(t[0]) && IsLow(t[1]))
    ensures ParseString(Escape(t) + tail) == Read(t, tail[1..])
    decreases |t|, 0
  {
    hide ParseString, EscapeUnit;
    StringRoundTrip(t[1..], tail);
    assert Escape(t) + tail == EscapeUnit(t[0]) + (Escape(t[1..]) + tail);
    EscapedUnit(t[0], Escape(t[1..]) + tail);
    assert t == [t[0]] + t[1..];
  }

  /** What follows a value in printed JSON never continues a number. */
  predicate Delimited(rest: Text) {
    rest == [] || !IsNumberUnit(rest[0])
  }

  lemma {:induction false} NumberLengthExact(t: Text, rest: Text)
    requires forall i :: 0 <= i < |t| ==> IsNumberUnit(t[i])
    requires Delimited(rest)
    ensures NumberLength(t + rest) == |t|
  {
    if t != [] {
      assert (t + rest)[1..] == t[1..] + rest;
      NumberLengthExact(t[1..], rest);
    } else {
      assert t + rest == rest;
    }
  }

  lemma NumberRoundTrip(t: Text, rest: Text)
    requires IsNumberText(t) && Delimited(rest)
    ensures ParseValue(t + rest) == Read(Num(t), rest)
  {
    var s := t + rest;
    NumberLengthExact(t, rest);
    assert s[0] == t[0];
    assert s[..|t|] == t && s[|t|..] == rest;
  }

  lemma KeywordRoundTrip(rest: Text)
    ensures ParseValue(NULL_TEXT + rest) == Read(Null, rest)
    ensures ParseValue(TRUE_TEXT + rest) == Read(Bool(true), rest)
    ensures ParseValue(FALSE_TEXT + rest) == Read(Bool(false), rest)
  {
    assert (NULL_TEXT + rest)[4..] == rest;
    assert (TRUE_TEXT + rest)[4..] == rest;
    assert (FALSE_TEXT + rest)[5..] == rest;
  }

  lemma ArrayText(inner: Text, rest: Text)
    requires inner != [] && inner[0] != RBRACKET
    ensures ParseValue([LBRACKET] + (inner + rest))
         == match ParseItems(inner + rest)
            case Fail => Fail
            case Read(items, r) => Read(Arr(items), r)
  {
    var s := [LBRACKET] + (inner + rest);
    assert s[1..] == inner + rest;
  }

  lemma ObjectText(inner: Text, rest: Text)
    requires inner != [] && inner[0] == QUOTE
    ensures ParseValue([LBRACE] + (inner + rest))
         == match ParseProps(inner + rest)
            case Fail => Fail
            case Read(props, r) => Read(Obj(props), r)
  {
    var s := [LBRACE] + (inner + rest);
    assert s[1..] == inner + rest;
  }

  lemma {:induction false} PrintRoundTrip(v: Json, rest: Text)
    requires WellFormed(v) && Delimited(rest)
    ensures ParseValue(Print(v) + rest) == Read(v, rest)
    decreases v, 1
  {
    match v
    case Null => KeywordRoundTrip(rest);
    case Bool(b) => KeywordRoundTrip(rest);
    case Num(t) => NumberRoundTrip(t, rest);
    case Str(t) => QuotedRoundTrip(t, rest);
    case Arr(items) => ArrayRoundTrip(items, rest);
    case Obj(props) => ObjectRoundTrip(props, rest);
  }

  lemma QuotedRoundTrip(t: Text, rest: Text)
    ensures ParseValue(PrintString(t) + rest) == Read(Str(t), rest)
  {
    QuotedParts(t, rest);
    StringRoundTrip(t, [QUOTE] + rest);
    hide Escape, ParseString, PrintString;
    StringRead(PrintString(t) + rest);
  }

  lemma StringRead(s: Text)
    requires s != [] && s[0] == QUOTE
    ensures ParseValue(s) == match ParseString(s[1..])
                             case Fail => Fail
                             case Read(t, r) => Read(Str(t), r)
  {
    hide ParseString;
  }

  lemma QuotedParts(t: Text, rest: Text)
    ensures var s := PrintString(t) + rest;
            s != [] && s[0] == QUOTE && s[1..] == Escape(t) + ([QUOTE] + rest) && ([QUOTE] + rest)[1..] == rest
  {
    hide Escape;
  }

  lemma {:induction false} ArrayRoundTrip(items: seq<Json>, rest: Text)
    requires forall i :: 0 <= i < |items| ==> WellFormed(items[i])
    ensures ParseValue(Print(Arr(items)) + rest) == Read(Arr(items), rest)
    decreases items, 1
  {
    if items == [] {
      assert Print(Arr(items)) + rest == [LBRACKET, RBRACKET] + rest;
      assert ([LBRACKET, RBRACKET] + rest)[2..] == rest;
    } else {
      ItemsRoundTrip(items, rest);
      PrintStart(items[0]);
      ArrayText(PrintItems(items), [RBRACKET] + rest);
      assert Print(Arr(items)) + rest == [LBRACKET] + (PrintItems(items) + ([RBRACKET] + rest));
    }
  }

  lemma {:induction false} ObjectRoundTrip(props: seq<Prop>, rest: Text)
    requires WellFormedProps(props)
    ensures ParseValue(Print(Obj(props)) + rest) == Read(Obj(props), rest)
    decreases props, 1
  {
    if props == [] {
      assert Print(Obj(props)) + rest == [LBRACE, RBRACE] + rest;
      assert ([LBRACE, RBRACE] + rest)[2..] == rest;
    } else {
      PropsRoundTrip(props, rest);
      assert Print(Obj(props)) == [LBRACE] + PrintProps(props) + [RBRACE];
      hide Print, PrintProps, ParseValue, ParseProps;
      ObjectRead(PrintProps(props), props, rest);
    }
  }

  lemma ObjectRead(inner: Text, props: seq<Prop>, rest: Text)
    requires inner != [] && inner[0] == QUOTE
    requires ParseProps(inner + ([RBRACE] + rest)) == Read(props, rest)
    ensures ParseValue([LBRACE] + inner + [RBRACE] + rest) == Read(Obj(props), rest)
  {
    ObjectText(inner, [RBRACE] + rest);
    hide ParseValue, ParseProps;
    assert [LBRACE] + inner + [RBRACE] + rest == [LBRACE] + (inner + ([RBRACE] + rest));
  }

  lemma PrintStart(v: Json)
    requires WellFormed(v)
    ensures Print(v) != [] && Print(v)[0] != RBRACKET
  {
  }

  /** One step of the item list: a value followed by a comma or by the closing bracket. */
  lemma {:induction false} ItemStep(v: Json, rest: Text)
    requires WellFormed(v) && rest != [] && (rest[0] == COMMA || rest[0] == RBRACKET)
    ensures ParseItems(Print(v) + rest)
         == if rest[0] == RBRACKET then Read([v], rest[1..])
            else match ParseItems(rest[1..])
                 case Fail => Fail
                 case Read(more, r) => Read([v] + more, r)
    decreases v, 2
  {
    hide ParseValue, Print;
    PrintRoundTrip(v, rest);
  }

  lemma {:induction false} ItemsRoundTrip(items: seq<Json>, rest: Text)
    requires items != [] && forall i :: 0 <= i < |items| ==> WellFormed(items[i])
    ensures ParseItems(PrintItems(items) + ([RBRACKET] + rest)) == Read(items, rest)
    decreases items, 0
  {
    hide ParseItems, Print;
    var v := items[0];
    if |items| == 1 {
      ItemStep(v, [RBRACKET] + rest);
      assert ([RBRACKET] + rest)[1..] == rest;
      assert items == [v];
    } else {
      var more := PrintItems(items[1..]) + ([RBRACKET] + rest);
      ItemsRoundTrip(items[1..], rest);
      ItemStep(v, [COMMA] + more);
      assert ([COMMA] + more)[1..] == more;
      assert PrintItems(items) + ([RBRACKET] + rest) == Print(v) + ([COMMA] + more);
      assert items == [v] + items[1..];
    }
  }

  lemma KeyRoundTrip(p: Prop, tail: Text)
    requires tail != [] && tail[0] == COLON
    ensures ParseProp(PrintString(p.key) + tail)
         == match ParseValue(tail[1..])
            case Fail => Fail
            case Read(v, r) => Read(Prop(p.key, v), r)
  {
    hide ParseString, Escape, ParseValue;
    StringRoundTrip(p.key, [QUOTE] + tail);
    assert ([QUOTE] + tail)[1..] == tail;
    assert (PrintString(p.key) + tail)[1..] == Escape(p.key) + ([QUOTE] + tail);
  }

  lemma {:induction false} PropRoundTrip(p: Prop, rest: Text)
    requires WellFormed(p.value) && Delimited(rest)
    ensures ParseProp(PrintProp(p) + rest) == Read(p, rest)
    decreases p, 0
  {
    hide ParseValue, ParseProp, PrintString, Print;
    var tail := [COLON] + (Print(p.value) + rest);
    PrintRoundTrip(p.value, rest);
    KeyRoundTrip(p, tail);
    assert tail[1..] == Print(p.value) + rest;
    assert PrintProp(p) + rest == PrintString(p.key) + tail;
  }

  /** One step of the property list: a property followed by a comma or by the closing brace. */
  lemma PropStep(p: Prop, rest: Text)
    requires WellFormed(p.value) && rest != [] && (rest[0] == COMMA || rest[0] == RBRACE)
    ensures ParseProps(PrintProp(p) + rest)
         == if rest[0] == RBRACE then Read([p], rest[1..])
            else match ParseProps(rest[1..])
                 case Fail => Fail
                 case Read(more, r) => Read([p] + more, r)
    decreases p, 1
  {
    PropRoundTrip(p, rest);
  }

  lemma {:induction false} PropsRoundTrip(props: seq<Prop>, rest: Text)
    requires props != [] && forall i :: 0 <= i < |props| ==> WellFormed(props[i].value)
    ensures ParseProps(PrintProps(props) + ([RBRACE] + rest)) == Read(props, rest)
    decreases props, 0
  {
    hide ParseProps, ParseProp, PrintProp;
    var p := props[0];
    if |props| == 1 {
      PropStep(p, [RBRACE] + rest);
      assert ([RBRACE] + rest)[1..] == rest;
      assert props == [p];
    } else {
      var more := PrintProps(props[1..]) + ([RBRACE] + rest);
      PropsRoundTrip(props[1..], rest);
      PropStep(p, [COMMA] + more);
      assert ([COMMA] + more)[1..] == more;
      assert PrintProps(props) + ([RBRACE] + rest) == PrintProp(p) + ([COMMA] + more);
      assert props == [p] + props[1..];
    }
  }

  /** Printed JSON determines the value, key order included. */
  lemma PrintInjective(v: Json, w: Json)
    requires WellFormed(v) && WellFormed(w) && Print(v) == Print(w)
    ensures v == w
  {
    PrintRoundTrip(v, []);
    PrintRoundTrip(w, []);
    assert Print(v) + [] == Print(v) && Print(w) + [] == Print(w);
  }

  // ----- printed text has no lone surrogate -----

  lemma {:induction false} EscapePaired(s: Text)
    ensures Paired(Escape(s))
  {
    if s != [] {
      if |s| > 1 && IsHigh(s[0]) && IsLow(s[1]) {
        EscapePaired(s[2..]);
        PairedConcat(s[..2], Escape(s[2..]));
      } else {
        EscapePaired(s[1..]);
        UnitPaired(s[0]);
        hide EscapeUnit, Paired;
        PairedConcat(EscapeUnit(s[0]), Escape(s[1..]));
      }
    }
  }

  lemma UnitPaired(u: Unit)
    ensures Paired(EscapeUnit(u))
  {
  }

  lemma PrintStringPaired(s: Text)
    ensures Paired(PrintString(s))
  {
    EscapePaired(s);
    PlainText([QUOTE]);
    hide Paired, Escape;
    PairedConcat([QUOTE], Escape(s));
    PairedConcat([QUOTE] + Escape(s), [QUOTE]);
  }

  lemma BracketsPaired(open: Unit, inner: Text, close: Unit)
    requires Paired(inner) && !IsSurrogate(open) && !IsSurrogate(close)
    ensures Paired([open] + inner + [close])
  {
    PlainText([open]);
    PlainText([close]);
    hide Paired;
    PairedConcat([open], inner);
    PairedConcat([open] + inner, [close]);
  }

  lemma CommaPaired(a: Text, b: Text)
    requires Paired(a) && Paired(b)
    ensures Paired(a + [COMMA] + b)
  {
    PlainText([COMMA]);
    hide Paired;
    PairedConcat(a, [COMMA]);
    PairedConcat(a + [COMMA], b);
  }

  /** Whatever strings a value holds, its printed text holds no lone surrogate. */
  lemma {:induction false} PrintPaired(v: Json)
    ensures Paired(Print(v))
    decreases v, 1
  {
    hide Paired;
    match v
    case Null => PlainText(NULL_TEXT);
    case Bool(b) =>
      PlainText(TRUE_TEXT);
      PlainText(FALSE_TEXT);
    case Num(t) => PlainText(t);
    case Str(s) => PrintStringPaired(s);
    case Arr(items) =>
      PrintItemsPaired(items);
      BracketsPaired(LBRACKET, PrintItems(items), RBRACKET);
    case Obj(props) =>
      PrintPropsPaired(props);
      BracketsPaired(LBRACE, PrintProps(props), RBRACE);
  }

  lemma {:induction false} PrintItemsPaired(items: seq<Json>)
    ensures Paired(PrintItems(items))
    decreases items, 0
  {
    if items != [] {
      hide Paired;
      PrintPaired(items[0]);
      PrintItemsPaired(items[1..]);
      CommaPaired(Print(items[0]), PrintItems(items[1..]));
    }
  }

  lemma PrintPropPaired(p: Prop)
    ensures Paired(PrintProp(p))
    decreases p, 0
  {
    PrintStringPaired(p.key);
    PrintPaired(p.value);
    PlainText([COLON]);
    hide Paired, PrintString;
    PairedConcat(PrintString(p.key), [COLON]);
    PairedConcat(PrintString(p.key) + [COLON], Print(p.value));
  }

  lemma {:induction false} PrintPropsPaired(props: seq<Prop>)
    ensures Paired(PrintProps(props))
    decreases props, 0
  {
    if props != [] {
      hide Paired, PrintProp;
      PrintPropPaired(props[0]);
      PrintPropsPaired(props[1..]);
      CommaPaired(PrintProp(props[0]), PrintProps(props[1..]));
    }
  }
}
