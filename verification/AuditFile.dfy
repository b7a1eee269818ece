/** The newline-delimited audit log of packages/cli/src/store.ts. */
module AuditFile {
  import opened Outcome
  import opened JsonText
  import opened JsValues
  import opened CliStore

  // ---------------------------------------------------------------------- lines

  /** Every line with a newline after it. */
  function Lines(texts: seq<string>): string {
    if texts == [] then "" else texts[0] + "\n" + Lines(texts[1..])
  }

  /** `split("\n")`. */
  function Split(s: string): (r: seq<string>)
    ensures r != []
  {
    if s == "" then [""]
    else
      var rest := Split(s[1..]);
      if s[0] == '\n' then [""] + rest else [[s[0]] + rest[0]] + rest[1..]
  }

  /** The white space and line terminators that `trim` removes. */
  predicate IsSpace(c: char) {
    var u := c as nat;
    9 <= u <= 13 || u == 0x20 || u == 0xA0 || u == 0x1680 || 0x2000 <= u <= 0x200A
    || u == 0x2028 || u == 0x2029 || u == 0x202F || u == 0x205F || u == 0x3000 || u == 0xFEFF
  }

  function TrimStart(s: string): string {
    if s != "" && IsSpace(s[0]) then TrimStart(s[1..]) else s
  }

  function TrimEnd(s: string): string {
    if s != "" && IsSpace(s[|s| - 1]) then TrimEnd(s[..|s| - 1]) else s
  }

  function Trim(s: string): string {
    TrimEnd(TrimStart(s))
  }

  /** Trim every line and keep those that are not empty. */
  function NonBlank(lines: seq<string>): seq<string> {
    if lines == [] then []
    else (if Trim(lines[0]) == "" then [] else [Trim(lines[0])]) + NonBlank(lines[1..])
  }

  /** A text that splitting, trimming and filtering leave alone. */
  ghost predicate IsLine(t: string) {
    t != "" && '\n' !in t && !IsSpace(t[0]) && !IsSpace(t[|t| - 1])
  }

  lemma {:induction false} SplitLine(t: string, rest: string)
    requires '\n' !in t
    ensures Split(t + "\n" + rest) == [t] + Split(rest)
  {
    if t == "" {
      assert t + "\n" + rest == "\n" + rest;
      assert ("\n" + rest)[1..] == rest;
    } else {
      assert (t + "\n" + rest)[1..] == t[1..] + "\n" + rest;
      SplitLine(t[1..], rest);
      assert t == [t[0]] + t[1..];
    }
  }

  /** Split, trim and filter undo writing lines. */
  lemma {:induction false} LinesSplit(texts: seq<string>)
    requires forall i :: 0 <= i < |texts| ==> IsLine(texts[i])
    ensures NonBlank(Split(Lines(texts))) == texts
  {
    if texts == [] {
      assert NonBlank([""]) == [] + NonBlank([""][1..]);
    } else {
      SplitLine(texts[0], Lines(texts[1..]));
      LinesSplit(texts[1..]);
      assert ([texts[0]] + Split(Lines(texts[1..])))[1..] == Split(Lines(texts[1..]));
      assert texts == [texts[0]] + texts[1..];
    }
  }

  // --------------------------------------------------- lines not written by the tool

  /** A line with white space around its text, which may be empty. */
  datatype Padded = Padded(before: string, text: string, after: string)

  ghost predicate IsPadding(s: string) {
    forall i :: 0 <= i < |s| ==> s[i] != '\n' && IsSpace(s[i])
  }

  ghost predicate IsPadded(p: Padded) {
    IsPadding(p.before) && IsPadding(p.after) && (p.text == "" || IsLine(p.text))
  }

  function PaddedText(p: Padded): string {
    p.before + p.text + p.after
  }

  function PaddedFile(ps: seq<Padded>): string {
    if ps == [] then "" else PaddedText(ps[0]) + "\n" + PaddedFile(ps[1..])
  }

  function NonEmpty(ps: seq<Padded>): seq<string> {
    if ps == [] then [] else (if ps[0].text == "" then [] else [ps[0].text]) + NonEmpty(ps[1..])
  }

  lemma {:induction false} TrimStartPadding(pad: string, s: string)
    requires IsPadding(pad)
    ensures TrimStart(pad + s) == TrimStart(s)
  {
    if pad == "" {
      assert pad + s == s;
    } else {
      assert (pad + s)[1..] == pad[1..] + s;
      TrimStartPadding(pad[1..], s);
    }
  }

  lemma {:induction false} TrimEndPadding(s: string, pad: string)
    requires IsPadding(pad)
    ensures TrimEnd(s + pad) == TrimEnd(s)
    decreases |pad|
  {
    if pad == "" {
      assert s + pad == s;
    } else {
      var init := pad[..|pad| - 1];
      assert (s + pad)[..|s + pad| - 1] == s + init;
      TrimEndPadding(s, init);
    }
  }

  /** Trimming leaves the text. */
  lemma TrimPadded(p: Padded)
    requires IsPadded(p)
    ensures Trim(PaddedText(p)) == p.text
  {
    assert PaddedText(p) == p.before + (p.text + p.after);
    TrimStartPadding(p.before, p.text + p.after);
    if p.text == "" {
      assert p.text + p.after == p.after + "" && "" + p.after == p.after;
      TrimStartPadding(p.after, "");
    } else {
      TrimEndPadding(p.text, p.after);
    }
  }

  /** Reading ignores white space around events and lines without any, such as carriage returns. */
  lemma {:induction false} PaddedLinesRead(ps: seq<Padded>)
    requires forall i :: 0 <= i < |ps| ==> IsPadded(ps[i])
    ensures NonBlank(Split(PaddedFile(ps))) == NonEmpty(ps)
  {
    if ps == [] {
      assert NonBlank([""]) == [] + NonBlank([""][1..]);
    } else {
      var t := PaddedText(ps[0]);
      assert '\n' !in t;
      SplitLine(t, PaddedFile(ps[1..]));
      PaddedLinesRead(ps[1..]);
      TrimPadded(ps[0]);
      assert ([t] + Split(PaddedFile(ps[1..])))[1..] == Split(PaddedFile(ps[1..]));
    }
  }

  /** The characters trimmed: the white space and line ends of ECMAScript, among ASCII six. */
  lemma AsciiSpaces(c: char)
    requires c < 0x80 as char
    ensures IsSpace(c) <==> c in {'\t', '\n', 0xB as char, 0xC as char, '\r', ' '}
  {
  }

  lemma {:induction false} LinesConcat(a: seq<string>, b: seq<string>)
    ensures Lines(a + b) == Lines(a) + Lines(b)
  {
    if a == [] {
      assert a + b == b;
    } else {
      assert (a + b)[1..] == a[1..] + b;
      LinesConcat(a[1..], b);
    }
  }

  lemma {:induction false} JoinIsLines(texts: seq<string>)
    requires texts != []
    ensures Join(texts, "\n") + "\n" == Lines(texts)
  {
    if |texts| > 1 {
      JoinIsLines(texts[1..]);
      assert Join(texts, "\n") + "\n" == texts[0] + "\n" + (Join(texts[1..], "\n") + "\n");
    } else {
      assert texts[1..] == [];
    }
  }

  // ------------------------------------------------ a JSON text is always a line

  predicate Clean(s: string) {
    '\n' !in s
  }

  lemma CleanConcat(a: string, b: string)
    requires Clean(a) && Clean(b)
    ensures Clean(a + b)
  {
  }

  lemma {:induction false} QuoteClean(s: string)
    ensures Clean(Quote(s))
  {
    EscapeClean(s);
    CleanConcat("\"" + Escape(s), "\"");
  }

  lemma {:induction false} EscapeClean(s: string)
    ensures Clean(Escape(s))
  {
    if s != "" {
      EscapeClean(s[1..]);
      CleanConcat(EscapeChar(s[0]), Escape(s[1..]));
    }
  }

  lemma {:induction false} JoinClean(parts: seq<string>)
    requires forall i :: 0 <= i < |parts| ==> Clean(parts[i])
    ensures Clean(Join(parts, ","))
  {
    if |parts| > 1 {
      JoinClean(parts[1..]);
      CleanConcat(parts[0] + ",", Join(parts[1..], ","));
    }
  }

  lemma {:induction false} PrintClean(j: Json)
    requires WellFormed(j)
    ensures Clean(Print(Quote, j))
    decreases j, 1
  {
    match j
    case JStr(s) => QuoteClean(s);
    case JNum(t) => assert forall i :: 0 <= i < |t| ==> NumberChar(t[i]) && t[i] != '\n';
    case JArr(js) =>
      ItemsClean(js);
      JoinClean(PrintItems(Quote, js));
    case JObj(fs) =>
      FieldsClean(fs);
      JoinClean(PrintFields(Quote, fs));
    case _ =>
  }

  lemma {:induction false} ItemsClean(js: seq<Json>)
    requires forall i :: 0 <= i < |js| ==> WellFormed(js[i])
    ensures forall i :: 0 <= i < |js| ==> Clean(PrintItems(Quote, js)[i])
    decreases js, 0
  {
    if js != [] {
      PrintClean(js[0]);
      ItemsClean(js[1..]);
    }
  }

  lemma {:induction false} FieldsClean(fs: seq<Field<Json>>)
    requires forall i :: 0 <= i < |fs| ==> WellFormed(fs[i].val)
    ensures forall i :: 0 <= i < |fs| ==> Clean(PrintFields(Quote, fs)[i])
    decreases fs, 0
  {
    if fs != [] {
      PrintClean(fs[0].val);
      QuoteClean(fs[0].key);
      FieldsClean(fs[1..]);
      CleanConcat(Quote(fs[0].key) + ":", Print(Quote, fs[0].val));
    }
  }

  /** Serialized JSON has no newline in it and no white space around it. */
  lemma PrintIsLine(j: Json)
    requires WellFormed(j)
    ensures IsLine(Print(Quote, j))
  {
    PrintClean(j);
    var s := Print(Quote, j);
    assert s != "" && !IsSpace(s[0]) && !IsSpace(s[|s| - 1]);
  }

  // ------------------------------------------------------------------------ file

  function Texts(order: set<string> -> seq<string>, events: seq<JsValue>): (r: seq<string>)
    requires Enumerates(order)
    ensures |r| == |events| && forall i :: 0 <= i < |r| ==> r[i] == CanonicalStringify(order, events[i])
  {
    seq(|events|, i requires 0 <= i < |events| => CanonicalStringify(order, events[i]))
  }

  lemma TextsAreLines(order: set<string> -> seq<string>, events: seq<JsValue>)
    requires Enumerates(order)
    ensures forall i :: 0 <= i < |events| ==> IsLine(Texts(order, events)[i])
  {
    forall i | 0 <= i < |events| ensures IsLine(Texts(order, events)[i]) {
      ToJsonWellFormed(order, Canonical(events[i]));
      PrintIsLine(ToJson(order, Canonical(events[i])));
    }
  }

  /** Appending the joined texts of more events leaves the lines of all events. */
  lemma AppendedLines(order: set<string> -> seq<string>, events: seq<JsValue>, added: seq<JsValue>)
    requires Enumerates(order) && added != []
    ensures Lines(Texts(order, events + added))
         == Lines(Texts(order, events)) + (Join(Texts(order, added), "\n") + "\n")
    ensures events == [] ==> Lines(Texts(order, events)) == ""
  {
    hide Lines, Join, CanonicalStringify, Enumerates;
    var texts := Texts(order, added);
    JoinIsLines(texts);
    LinesConcat(Texts(order, events), texts);
    assert Texts(order, events + added) == Texts(order, events) + texts;
    if events == [] {
      assert Texts(order, events) == [];
      NoLines();
    }
  }

  lemma NoLines()
    ensures Lines([]) == ""
  {
  }

  /** The log on disk. `events` is what has been appended since the last reset. */
  class AuditLog {
    /** `None` while there is no file. */
    var content: Option<string>
    ghost var events: seq<JsValue>
    const order: set<string> -> seq<string>

    ghost predicate Valid()
      reads this
    {
      && Enumerates(order)
      && (content.None? ==> events == [])
      && (content.Some? ==> content.value == Lines(Texts(order, events)))
    }

    constructor (order: set<string> -> seq<string>)
      requires Enumerates(order)
      ensures Valid() && events == [] && content.None?
    {
      this.order := order;
      content := None;
      events := [];
    }

    method Reset()
      requires Enumerates(order)
      modifies this
      ensures Valid() && events == [] && content == Some("")
    {
      content := Some("");
      events := [];
    }

    method Append(added: seq<JsValue>)
      requires Valid()
      modifies this
      ensures Valid() && events == old(events) + added
      ensures added == [] ==> content == old(content)
    {
      if added == [] {
        assert events == events + added;
        return;
      }
      hide Lines, Join, Texts, Enumerates;
      var body := Join(Texts(order, added), "\n") + "\n";
      AppendedLines(order, events, added);
      content := Some((if content.None? then "" else content.value) + body);
      events := events + added;
    }

    /** What is read is each event appended, canonicalized, in order. */
    method Read() returns (r: Option<seq<JsValue>>)
      requires Valid()
      ensures r.Some? && |r.value| == |events|
      ensures forall i :: 0 <= i < |events| ==> r.value[i] == Reread(Canonical(events[i]))
    {
      hide Lines, Split, NonBlank, CanonicalStringify, Parse, Reread, Canonical, FromJson, WellFormed, IsLine;
      if content.None? { return Some([]); }
      TextsAreLines(order, events);
      LinesSplit(Texts(order, events));
      var lines := NonBlank(Split(content.value));
      var out: seq<JsValue> := [];
      for i := 0 to |lines|
        invariant |out| == i && forall k :: 0 <= k < i ==> out[k] == Reread(Canonical(events[k]))
      {
        EventReadsBack(order, events[i]);
        var j := Parse(lines[i]);
        if j.None? { return None; }
        out := out + [FromJson(j.value)];
      }
      return Some(out);
    }
  }

  lemma EventReadsBack(order: set<string> -> seq<string>, event: JsValue)
    requires Enumerates(order)
    ensures var j := Parse(CanonicalStringify(order, event));
            j.Some? && WellFormed(j.value) && FromJson(j.value) == Reread(Canonical(event))
  {
    ReadsBack(order, Canonical(event));
    ParsePrint(ToJson(order, Canonical(event)));
  }

  /** The events that read back as they were appended are JSON data with no key named like the prototype accessor. */
  lemma UnchangedIff(event: JsValue)
    ensures Reread(Canonical(event)) == event <==> PlainData(event) && NoProtoKey(event)
  {
    if PlainData(event) {
      PlainStored(event);
      WithoutProtoIff(event);
    }
    if Reread(Canonical(event)) == event { StoredIsPlain(event); }
  }

  datatype Operation = Resetting | Appending(events: seq<JsValue>)

  /** The events a history leaves in the log. */
  function SinceReset(history: seq<Operation>): seq<JsValue> {
    if history == [] then []
    else match history[|history| - 1]
      case Resetting => []
      case Appending(es) => SinceReset(history[..|history| - 1]) + es
  }

  /** After any run of resets and appends the file reads as the list of events since the last reset. */
  method RunAndRead(order: set<string> -> seq<string>, history: seq<Operation>) returns (r: Option<seq<JsValue>>)
    requires Enumerates(order)
    ensures r.Some? && |r.value| == |SinceReset(history)|
    ensures forall i :: 0 <= i < |r.value| ==> r.value[i] == Reread(Canonical(SinceReset(history)[i]))
  {
    var log := new AuditLog(order);
    for i := 0 to |history|
      invariant fresh(log) && log.Valid() && log.events == SinceReset(history[..i])
    {
      assert history[..i + 1][..i] == history[..i];
      match history[i] {
        case Resetting => log.Reset();
        case Appending(es) => log.Append(es);
      }
    }
    assert history[..|history|] == history;
    r := log.Read();
  }
}
