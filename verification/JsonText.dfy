/**
 * Minified JSON text: the printer shared by `json.dumps(…, ensure_ascii=False)`
 * and `JSON.stringify`, and a parser for exactly the text it produces. Numbers
 * are kept as their text, so the same printer serves every number format.
 */
module JsonText {
  import opened Outcome

  datatype Field<+T> = Field(key: string, val: T)

  datatype Json =
    | JNull
    | JBool(b: bool)
    | JNum(text: string)
    | JStr(s: string)
    | JArr(items: seq<Json>)
    | JObj(fields: seq<Field<Json>>)

  // ---------------------------------------------------------------- printing

  function Join(parts: seq<string>, sep: string): string {
    if parts == [] then ""
    else if |parts| == 1 then parts[0]
    else parts[0] + sep + Join(parts[1..], sep)
  }

  /** `quote` prints a string literal; `Quote` below is the JSON one. */
  function Print(quote: string -> string, j: Json): string {
    match j
    case JNull => "null"
    case JBool(b) => if b then "true" else "false"
    case JNum(t) => t
    case JStr(s) => quote(s)
    case JArr(js) => "[" + Join(PrintItems(quote, js), ",") + "]"
    case JObj(fs) => "{" + Join(PrintFields(quote, fs), ",") + "}"
  }

  function PrintItems(quote: string -> string, js: seq<Json>): (r: seq<string>)
    ensures |r| == |js|
  {
    if js == [] then [] else [Print(quote, js[0])] + PrintItems(quote, js[1..])
  }

  function PrintFields(quote: string -> string, fs: seq<Field<Json>>): (r: seq<string>)
    ensures |r| == |fs|
  {
    if fs == [] then []
    else [FieldText(quote, fs[0].key, Print(quote, fs[0].val))] + PrintFields(quote, fs[1..])
  }

  function FieldText(quote: string -> string, key: string, value: string): string {
    quote(key) + ":" + value
  }

  // ---------------------------------------------------------- string literals

  function HexChar(d: nat): char
    requires d < 16
  {
    if d < 10 then '0' + d as char else 'a' + (d - 10) as char
  }

  function HexValue(c: char): Option<nat> {
    if '0' <= c <= '9' then Some((c - '0') as nat)
    else if 'a' <= c <= 'f' then Some(10 + (c - 'a') as nat)
    else None
  }

  const BACKSPACE: char := 8 as char
  const FORM_FEED: char := 12 as char

  function EscapeChar(c: char): (r: string)
    ensures r != "" && r[0] != '\"'
  {
    if c == '\"' then "\\\""
    else if c == '\\' then "\\\\"
    else if c == '\n' then "\\n"
    else if c == '\r' then "\\r"
    else if c == '\t' then "\\t"
    else if c == BACKSPACE then "\\b"
    else if c == FORM_FEED then "\\f"
    else if c < ' ' then "\\u00" + [HexChar(c as nat / 16), HexChar(c as nat % 16)]
    else [c]
  }

  function Escape(s: string): string {
    if s == "" then "" else EscapeChar(s[0]) + Escape(s[1..])
  }

  function Quote(s: string): string {
    "\"" + Escape(s) + "\""
  }

  /** Exactly the quote, the backslash and the control characters are escaped, five of the latter by a letter. */
  lemma EscapedCharacters(c: char)
    ensures EscapeChar(c) == [c] <==> c >= ' ' && c != '\"' && c != '\\'
    ensures |EscapeChar(c)| == 2 <==> c in {'\"', '\\', '\n', '\r', '\t', 8 as char, 12 as char}
    ensures |EscapeChar(c)| in {1, 2, 6}
    ensures |EscapeChar(c)| > 1 ==> EscapeChar(c)[0] == '\\'
    ensures |EscapeChar(c)| == 6 ==>
              EscapeChar(c)[..4] == "\\u00"
              && forall i :: 4 <= i < 6 ==> EscapeChar(c)[i] in "0123456789abcdef"
  {
    if |EscapeChar(c)| == 6 {
      LowerHex(c as nat / 16);
      LowerHex(c as nat % 16);
    }
  }

  lemma LowerHex(d: nat)
    requires d < 16
    ensures HexChar(d) in "0123456789abcdef"
  {
    var digits := "0123456789abcdef";
    assert digits[d] == HexChar(d);
  }

  // ----------------------------------------------------------------- parsing

  /** What is left of the input after one construct. */
  datatype Parsed<+T> = Failed | Got(val: T, rest: string)

  /** One possibly escaped character at the head of a string literal's body. */
  function ParseChar(s: string): (r: Parsed<char>)
    requires s != ""
    ensures r.Got? ==> |r.rest| < |s|
  {
    if s[0] != '\\' then (if s[0] < ' ' then Failed else Got(s[0], s[1..]))
    else if |s| < 2 then Failed
    else match s[1]
      case '\"' => Got('\"', s[2..])
      case '\\' => Got('\\', s[2..])
      case '/' => Got('/', s[2..])
      case 'n' => Got('\n', s[2..])
      case 'r' => Got('\r', s[2..])
      case 't' => Got('\t', s[2..])
      case 'b' => Got(BACKSPACE, s[2..])
      case 'f' => Got(FORM_FEED, s[2..])
      case 'u' =>
        if |s| < 6 then Failed
        else (match (HexValue(s[2]), HexValue(s[3]), HexValue(s[4]), HexValue(s[5]))
              case (Some(a), Some(b), Some(c), Some(d)) =>
                var v := a * 0x1000 + b * 0x100 + c * 0x10 + d;
                if 0 <= v < 0xD800 then Got(v as char, s[6..]) else Failed
              case _ => Failed)
      case _ => Failed
  }

  /** The body of a string literal up to and including the closing quote. */
  function ParseBody(s: string): (r: Parsed<string>)
    ensures r.Got? ==> |r.rest| < |s|
    decreases |s|
  {
    if s == "" then Failed
    else if s[0] == '\"' then Got("", s[1..])
    else match ParseChar(s)
      case Failed => Failed
      case Got(c, rest) =>
        match ParseBody(rest)
        case Failed => Failed
        case Got(t, rest') => Got([c] + t, rest')
  }

  predicate NumberChar(c: char) {
    '0' <= c <= '9' || c == '-' || c == '+' || c == '.' || c == 'e' || c == 'E'
  }

  /** The longest run of number characters at the head of `s`. */
  function NumberLength(s: string): (n: nat)
    ensures n <= |s|
  {
    if s == "" || !NumberChar(s[0]) then 0 else 1 + NumberLength(s[1..])
  }

  function ParseValue(s: string): (r: Parsed<Json>)
    ensures r.Got? ==> |r.rest| < |s|
    decreases |s|, 0
  {
    if s == "" then Failed
    else if s[0] == 'n' then (if "null" <= s then Got(JNull, s[4..]) else Failed)
    else if s[0] == 't' then (if "true" <= s then Got(JBool(true), s[4..]) else Failed)
    else if s[0] == 'f' then (if "false" <= s then Got(JBool(false), s[5..]) else Failed)
    else if s[0] == '\"' then
      match ParseBody(s[1..])
      case Failed => Failed
      case Got(t, rest) => Got(JStr(t), rest)
    else if s[0] == '[' then
      if "[]" <= s then Got(JArr([]), s[2..])
      else (match ParseItems(s[1..])
            case Failed => Failed
            case Got(js, rest) => Got(JArr(js), rest))
    else if s[0] == '{' then
      if "{}" <= s then Got(JObj([]), s[2..])
      else (match ParseFields(s[1..])
            case Failed => Failed
            case Got(fs, rest) => Got(JObj(fs), rest))
    else
      var n := NumberLength(s);
      if n == 0 then Failed else Got(JNum(s[..n]), s[n..])
  }

  function ParseItems(s: string): (r: Parsed<seq<Json>>)
    ensures r.Got? ==> |r.rest| < |s|
    decreases |s|, 1
  {
    match ParseValue(s)
    case Failed => Failed
    case Got(j, rest) =>
      if rest == "" then Failed
      else if rest[0] == ']' then Got([j], rest[1..])
      else if rest[0] == ',' then
        match ParseItems(rest[1..])
        case Failed => Failed
        case Got(js, rest') => Got([j] + js, rest')
      else Failed
  }

  function ParseFields(s: string): (r: Parsed<seq<Field<Json>>>)
    ensures r.Got? ==> |r.rest| < |s|
    decreases |s|, 1
  {
    if s == "" || s[0] != '\"' then Failed
    else match ParseBody(s[1..])
      case Failed => Failed
      case Got(k, colon) =>
        if colon == "" || colon[0] != ':' then Failed
        else match ParseValue(colon[1..])
          case Failed => Failed
          case Got(j, rest) =>
            if rest == "" then Failed
            else if rest[0] == '}' then Got([Field(k, j)], rest[1..])
            else if rest[0] == ',' then
              match ParseFields(rest[1..])
              case Failed => Failed
              case Got(fs, rest') => Got([Field(k, j)] + fs, rest')
            else Failed
  }

  function Parse(s: string): Option<Json> {
    match ParseValue(s)
    case Failed => None
    case Got(j, rest) => if rest == "" then Some(j) else None
  }

  // ------------------------------------------------------------- round trip

  predicate NumberText(t: string) {
    t != "" && forall i :: 0 <= i < |t| ==> NumberChar(t[i])
  }

  /** Every number of the tree has a number's text. */
  predicate WellFormed(j: Json) {
    match j
    case JNum(t) => NumberText(t)
    case JArr(js) => forall i :: 0 <= i < |js| ==> WellFormed(js[i])
    case JObj(fs) => forall i :: 0 <= i < |fs| ==> WellFormed(fs[i].val)
    case _ => true
  }

  /** A text that cannot extend a number before it. */
  predicate Delimits(rest: string) {
    rest == "" || !NumberChar(rest[0])
  }

  lemma ParseEscapedChar(c: char, rest: string)
    ensures ParseChar(EscapeChar(c) + rest) == Got(c, rest)
  {
    var e := EscapeChar(c);
    assert (e + rest)[|e|..] == rest;
    if c < ' ' && |e| == 6 {
      HexRoundTrip(c as nat / 16);
      HexRoundTrip(c as nat % 16);
    }
  }

  lemma HexRoundTrip(d: nat)
    requires d < 16
    ensures HexValue(HexChar(d)) == Some(d)
  {
  }

  lemma BodyStep(s: string, c: char, rest: string, t: string, rest': string)
    requires s != "" && s[0] != '\"' && ParseChar(s) == Got(c, rest) && ParseBody(rest) == Got(t, rest')
    ensures ParseBody(s) == Got([c] + t, rest')
  {
  }

  lemma {:induction false} ParseEscaped(s: string, rest: string)
    ensures ParseBody(Escape(s) + "\"" + rest) == Got(s, rest)
  {
    hide ParseBody, ParseChar, EscapeChar;
    if s == "" {
      assert Escape(s) + "\"" + rest == "\"" + rest;
      BodyEnd(rest);
    } else {
      var tail := Escape(s[1..]) + "\"" + rest;
      assert Escape(s) + "\"" + rest == EscapeChar(s[0]) + tail;
      ParseEscapedChar(s[0], tail);
      ParseEscaped(s[1..], rest);
      BodyStep(EscapeChar(s[0]) + tail, s[0], tail, s[1..], rest);
      assert s == [s[0]] + s[1..];
    }
  }

  lemma BodyEnd(rest: string)
    ensures ParseBody("\"" + rest) == Got("", rest)
  {
    assert ("\"" + rest)[1..] == rest;
  }

  lemma {:induction false} NumberRun(t: string, rest: string)
    requires forall i :: 0 <= i < |t| ==> NumberChar(t[i])
    requires Delimits(rest)
    ensures NumberLength(t + rest) == |t|
  {
    if t == "" {
      assert t + rest == rest;
    } else {
      assert (t + rest)[1..] == t[1..] + rest;
      NumberRun(t[1..], rest);
    }
  }

  // One step of the parser each, so that no proof unfolds two of them at once.

  lemma ItemsStep(s: string, j: Json, rest: string, js: seq<Json>, rest': string)
    requires ParseValue(s) == Got(j, rest) && rest != ""
    requires rest[0] == ']' ==> js == [] && rest' == rest[1..]
    requires rest[0] != ']' ==> rest[0] == ',' && ParseItems(rest[1..]) == Got(js, rest')
    ensures ParseItems(s) == Got([j] + js, rest')
  {
    assert [j] + [] == [j];
  }

  lemma FieldsStep(s: string, k: string, colon: string, j: Json, rest: string, fs: seq<Field<Json>>, rest': string)
    requires s != "" && s[0] == '\"' && ParseBody(s[1..]) == Got(k, colon)
    requires colon != "" && colon[0] == ':' && ParseValue(colon[1..]) == Got(j, rest) && rest != ""
    requires rest[0] == '}' ==> fs == [] && rest' == rest[1..]
    requires rest[0] != '}' ==> rest[0] == ',' && ParseFields(rest[1..]) == Got(fs, rest')
    ensures ParseFields(s) == Got([Field(k, j)] + fs, rest')
  {
    assert [Field(k, j)] + [] == [Field(k, j)];
  }

  lemma ArrayStep(s: string, js: seq<Json>, rest: string)
    requires |s| > 1 && s[0] == '[' && s[1] != ']' && ParseItems(s[1..]) == Got(js, rest)
    ensures ParseValue(s) == Got(JArr(js), rest)
  {
  }

  lemma ObjectStep(s: string, fs: seq<Field<Json>>, rest: string)
    requires |s| > 1 && s[0] == '{' && s[1] != '}' && ParseFields(s[1..]) == Got(fs, rest)
    ensures ParseValue(s) == Got(JObj(fs), rest)
  {
  }

  lemma StringStep(s: string, t: string, rest: string)
    requires s != "" && s[0] == '\"' && ParseBody(s[1..]) == Got(t, rest)
    ensures ParseValue(s) == Got(JStr(t), rest)
  {
  }

  lemma NumberStep(t: string, rest: string)
    requires NumberText(t) && Delimits(rest)
    ensures ParseValue(t + rest) == Got(JNum(t), rest)
  {
    NumberRun(t, rest);
    assert (t + rest)[0] == t[0];
    assert (t + rest)[..|t|] == t && (t + rest)[|t|..] == rest;
  }

  lemma WordStep(j: Json, rest: string)
    requires j.JNull? || j.JBool?
    ensures ParseValue(Print(Quote, j) + rest) == Got(j, rest)
  {
    var s := Print(Quote, j) + rest;
    if j == JBool(false) {
      assert s[5..] == rest;
    } else {
      assert s[4..] == rest;
    }
  }

  lemma ParsePrintedLeaf(j: Json, rest: string)
    requires !j.JArr? && !j.JObj? && WellFormed(j) && Delimits(rest)
    ensures ParseValue(Print(Quote, j) + rest) == Got(j, rest)
  {
    hide ParseValue, ParseBody, Escape;
    match j
    case JNum(t) => NumberStep(t, rest);
    case JStr(t) =>
      var s := Quote(t) + rest;
      ParseEscaped(t, rest);
      assert s[1..] == Escape(t) + "\"" + rest;
      StringStep(s, t, rest);
    case _ => WordStep(j, rest);
  }

  lemma ParseEmpty(rest: string)
    ensures ParseValue("[]" + rest) == Got(JArr([]), rest)
    ensures ParseValue("{}" + rest) == Got(JObj([]), rest)
  {
    assert ("[]" + rest)[2..] == rest && ("{}" + rest)[2..] == rest;
  }

  /** The parser recovers any well-formed tree from its text and stops right after it. */
  lemma {:induction false} ParsePrinted(j: Json, rest: string)
    requires WellFormed(j) && Delimits(rest)
    ensures ParseValue(Print(Quote, j) + rest) == Got(j, rest)
    decreases j, 0
  {
    hide ParseItems, ParseFields, ParseValue, ParseBody, Escape, Quote;
    if j.JArr? && j.items != [] {
      ParsePrintedItems(j.items, rest);
      var body := Join(PrintItems(Quote, j.items), ",") + ("]" + rest);
      assert Print(Quote, j) + rest == "[" + body;
      assert ("[" + body)[1..] == body;
      FirstChar(j.items[0]);
      var _ := JoinEnd(PrintItems(Quote, j.items), "]" + rest);
      assert body[0] == Print(Quote, j.items[0])[0];
      ArrayStep("[" + body, j.items, rest);
    } else if j.JObj? && j.fields != [] {
      ParsePrintedFields(j.fields, rest);
      var body := Join(PrintFields(Quote, j.fields), ",") + ("}" + rest);
      assert Print(Quote, j) + rest == "{" + body;
      assert ("{" + body)[1..] == body;
      var _ := JoinEnd(PrintFields(Quote, j.fields), "}" + rest);
      assert body[0] == '\"' by { QuoteFirst(j.fields[0].key); }
      ObjectStep("{" + body, j.fields, rest);
    } else if j.JArr? || j.JObj? {
      assert Print(Quote, j) == if j.JArr? then "[]" else "{}";
      ParseEmpty(rest);
    } else {
      ParsePrintedLeaf(j, rest);
    }
  }

  lemma QuoteFirst(s: string)
    ensures Quote(s) != "" && Quote(s)[0] == '\"'
  {
  }

  /** A printed value is not empty and begins with neither a closing bracket nor white space. */
  lemma FirstChar(j: Json)
    requires WellFormed(j)
    ensures var s := Print(Quote, j); s != "" && s[0] != ']' && s[0] != ' ' && s[0] != '\n'
  {
  }

  lemma {:induction false} ParsePrintedItems(js: seq<Json>, rest: string)
    requires js != [] && forall i :: 0 <= i < |js| ==> WellFormed(js[i])
    ensures ParseItems(Join(PrintItems(Quote, js), ",") + ("]" + rest)) == Got(js, rest)
    decreases js, 1
  {
    hide ParseItems, ParseFields, ParseValue, ParseBody, Escape, Quote, Print, Join;
    assert PrintItems(Quote, js)[1..] == PrintItems(Quote, js[1..]);
    var end := JoinEnd(PrintItems(Quote, js), "]" + rest);
    ParsePrinted(js[0], end);
    if |js| > 1 { ParsePrintedItems(js[1..], rest); }
    ItemsStep(Print(Quote, js[0]) + end, js[0], end, js[1..], rest);
    assert js == [js[0]] + js[1..];
  }

  /** A joined list after its first part. */
  lemma JoinEnd(parts: seq<string>, after: string) returns (end: string)
    requires parts != [] && after != ""
    ensures Join(parts, ",") + after == parts[0] + end && end != ""
    ensures |parts| == 1 ==> end == after
    ensures |parts| > 1 ==> end[0] == ',' && end[1..] == Join(parts[1..], ",") + after
  {
    if |parts| == 1 {
      end := after;
    } else {
      var tail := Join(parts[1..], ",");
      end := "," + (tail + after);
      assert parts[0] + "," + tail + after == parts[0] + end;
    }
  }

  lemma {:induction false} ParsePrintedFields(fs: seq<Field<Json>>, rest: string)
    requires fs != [] && forall i :: 0 <= i < |fs| ==> WellFormed(fs[i].val)
    ensures ParseFields(Join(PrintFields(Quote, fs), ",") + ("}" + rest)) == Got(fs, rest)
    decreases fs, 1
  {
    hide ParseItems, ParseFields, ParseValue, ParseBody, Escape, Quote, Print, Join, FieldText;
    assert PrintFields(Quote, fs)[1..] == PrintFields(Quote, fs[1..]);
    var end := JoinEnd(PrintFields(Quote, fs), "}" + rest);
    ParsePrinted(fs[0].val, end);
    if |fs| > 1 { ParsePrintedFields(fs[1..], rest); }
    ParseFirstField(fs[0].key, fs[0].val, Print(Quote, fs[0].val), end, fs[1..], rest);
    assert fs == [Field(fs[0].key, fs[0].val)] + fs[1..];
  }

  lemma ParseFirstField(k: string, j: Json, text: string, end: string, fs: seq<Field<Json>>, rest: string)
    requires ParseValue(text + end) == Got(j, end) && end != ""
    requires end[0] == '}' ==> fs == [] && rest == end[1..]
    requires end[0] != '}' ==> end[0] == ',' && ParseFields(end[1..]) == Got(fs, rest)
    ensures ParseFields(FieldText(Quote, k, text) + end) == Got([Field(k, j)] + fs, rest)
  {
    hide ParseItems, ParseFields, ParseValue, ParseBody, Escape;
    var s := FieldText(Quote, k, text) + end;
    var colon := ":" + (text + end);
    assert s == Quote(k) + colon;
    assert s[1..] == Escape(k) + "\"" + colon;
    assert colon[1..] == text + end;
    ParseEscaped(k, colon);
    FieldsStep(s, k, colon, j, end, fs, rest);
  }

  /** The text of a well-formed tree determines the tree. */
  lemma ParsePrint(j: Json)
    requires WellFormed(j)
    ensures Parse(Print(Quote, j)) == Some(j)
  {
    ParsePrinted(j, "");
    assert Print(Quote, j) + "" == Print(Quote, j);
  }
}
