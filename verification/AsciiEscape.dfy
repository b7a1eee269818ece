/**
 * String literals of the signed Sift payload:
 * examples/reference-sift-oxdeai/shared/canonical.ts. Strings are sequences of
 * UTF-16 code units, as in JavaScript, paired surrogates or not.
 */
module AsciiEscape {
  import opened Outcome

  type Unit = u: nat | u < 0x10000

  predicate IsAscii(s: seq<Unit>) {
    forall i :: 0 <= i < |s| ==> s[i] <= 0x7F
  }

  function HexDigit(d: nat): (u: Unit)
    requires d < 16
    ensures u <= 0x7F
  {
    if d < 10 then 0x30 + d else 0x61 + (d - 10)
  }

  function HexValue(u: Unit): (r: Option<nat>)
    ensures r.Some? ==> r.value < 16
  {
    if 0x30 <= u <= 0x39 then Some(u - 0x30)
    else if 0x61 <= u <= 0x66 then Some(u - 0x61 + 10)
    else if 0x41 <= u <= 0x46 then Some(u - 0x41 + 10)
    else None
  }

  /** `\u` and four lower-case hex digits. */
  function UnicodeEscape(u: Unit): (r: seq<Unit>)
    ensures |r| == 6 && IsAscii(r)
  {
    [0x5C, 0x75, HexDigit(u / 0x1000), HexDigit(u / 0x100 % 16), HexDigit(u / 0x10 % 16), HexDigit(u % 16)]
  }

  predicate IsLead(u: Unit) { 0xD800 <= u < 0xDC00 }
  predicate IsTrail(u: Unit) { 0xDC00 <= u < 0xE000 }

  /** The escape letter of the control characters that have one. */
  function ShortEscape(u: Unit): Option<Unit> {
    match u
    case 0x22 => Some(0x22)
    case 0x5C => Some(0x5C)
    case 0x08 => Some(0x62)
    case 0x0C => Some(0x66)
    case 0x0A => Some(0x6E)
    case 0x0D => Some(0x72)
    case 0x09 => Some(0x74)
    case _ => None
  }

  /** One unit in `JSON.stringify`: an unpaired surrogate is escaped, a pair is not. */
  function StringifyUnit(u: Unit, paired: bool): seq<Unit> {
    if ShortEscape(u).Some? then [0x5C, ShortEscape(u).value]
    else if u < 0x20 || ((IsLead(u) || IsTrail(u)) && !paired) then UnicodeEscape(u)
    else [u]
  }

  /** `afterLead` says that the unit before `s` is a lead surrogate paired with `s[0]`. */
  function StringifyBody(s: seq<Unit>, afterLead: bool): seq<Unit> {
    if s == [] then []
    else
      var leads := !afterLead && IsLead(s[0]) && |s| > 1 && IsTrail(s[1]);
      StringifyUnit(s[0], afterLead || leads) + StringifyBody(s[1..], leads)
  }

  /** `JSON.stringify` of a string. */
  function Stringify(s: seq<Unit>): seq<Unit> {
    [0x22] + StringifyBody(s, false) + [0x22]
  }

  function EnsureAscii(s: seq<Unit>): seq<Unit> {
    if s == [] then []
    else EnsureAscii(s[..|s| - 1]) + if s[|s| - 1] > 0x7F then UnicodeEscape(s[|s| - 1]) else [s[|s| - 1]]
  }

  method ApplyEnsureAscii(json: seq<Unit>) returns (out: seq<Unit>)
    ensures out == EnsureAscii(json) && IsAscii(out)
  {
    out := [];
    for i := 0 to |json|
      invariant out == EnsureAscii(json[..i]) && IsAscii(out)
    {
      assert json[..i + 1][..i] == json[..i];
      var code := json[i];
      if code > 0x7F {
        out := out + UnicodeEscape(code);
      } else {
        out := out + [code];
      }
    }
    assert json[..|json|] == json;
  }

  // ------------------------------------------------------------------ decoding

  datatype Decoded = Failed | Got(unit: Unit, rest: seq<Unit>)

  /** One character of a JSON string literal, by section 7 of RFC 8259. */
  function DecodeUnit(s: seq<Unit>): (r: Decoded)
    requires s != []
    ensures r.Got? ==> |r.rest| < |s|
  {
    if s[0] != 0x5C then (if s[0] < 0x20 || s[0] == 0x22 then Failed else Got(s[0], s[1..]))
    else if |s| < 2 then Failed
    else match s[1]
      case 0x22 => Got(0x22, s[2..])
      case 0x5C => Got(0x5C, s[2..])
      case 0x2F => Got(0x2F, s[2..])
      case 0x62 => Got(0x08, s[2..])
      case 0x66 => Got(0x0C, s[2..])
      case 0x6E => Got(0x0A, s[2..])
      case 0x72 => Got(0x0D, s[2..])
      case 0x74 => Got(0x09, s[2..])
      case 0x75 =>
        if |s| < 6 then Failed
        else (match (HexValue(s[2]), HexValue(s[3]), HexValue(s[4]), HexValue(s[5]))
              case (Some(a), Some(b), Some(c), Some(d)) =>
                Got(a * 0x1000 + b * 0x100 + c * 0x10 + d, s[6..])
              case _ => Failed)
      case _ => Failed
  }

  function DecodeBody(s: seq<Unit>): Option<seq<Unit>>
    decreases |s|
  {
    if s == [] then None
    else if s[0] == 0x22 then (if |s| == 1 then Some([]) else None)
    else match DecodeUnit(s)
      case Failed => None
      case Got(u, rest) =>
        match DecodeBody(rest)
        case None => None
        case Some(t) => Some([u] + t)
  }

  function Decode(s: seq<Unit>): Option<seq<Unit>> {
    if s == [] || s[0] != 0x22 then None else DecodeBody(s[1..])
  }

  // -------------------------------------------------------------- what is escaped

  predicate IsLowerHex(u: Unit) {
    0x30 <= u <= 0x39 || 0x61 <= u <= 0x66
  }

  /** Hex digits are lower case. */
  lemma EscapeForm(u: Unit)
    ensures UnicodeEscape(u)[..2] == [0x5C, 0x75] && forall i :: 2 <= i < 6 ==> IsLowerHex(UnicodeEscape(u)[i])
  {
  }

  /**
   * A unit is left alone, escaped by a letter, or escaped by its number: the first
   * for printable ASCII but the quote and the backslash, the second for these two
   * and the five control characters that have one.
   */
  lemma EscapedUnits(u: Unit, paired: bool)
    ensures var e := EnsureAscii(StringifyUnit(u, paired));
            && (e == [u] <==> 0x20 <= u <= 0x7F && u != 0x22 && u != 0x5C)
            && (|e| == 2 <==> u in {0x22, 0x5C, 0x08, 0x09, 0x0A, 0x0C, 0x0D})
            && (|e| != 2 && e != [u] ==> e == UnicodeEscape(u))
  {
    hide UnicodeEscape, EnsureAscii;
    var raw := StringifyUnit(u, paired);
    if ShortEscape(u).Some? || raw == UnicodeEscape(u) {
      EnsureAsciiKeeps(raw);
    } else {
      EnsureAsciiOne(u);
    }
  }

  /** Well-formed UTF-16 from here on; `open` says that a lead surrogate is waiting for its trail. */
  predicate WellFormed(s: seq<Unit>, open: bool) {
    if s == [] then !open
    else if open then 0xDC00 <= s[0] <= 0xDFFF && WellFormed(s[1..], false)
    else if 0xD800 <= s[0] <= 0xDBFF then WellFormed(s[1..], true)
    else !(0xDC00 <= s[0] <= 0xDFFF) && WellFormed(s[1..], false)
  }

  lemma {:induction false} AsciiIsWellFormed(a: seq<Unit>, s: seq<Unit>)
    requires IsAscii(a)
    ensures WellFormed(a + s, false) == WellFormed(s, false)
  {
    if a == [] {
      assert a + s == s;
    } else {
      assert (a + s)[1..] == a[1..] + s;
      AsciiIsWellFormed(a[1..], s);
    }
  }

  /** `JSON.stringify` leaves no unpaired surrogate. */
  lemma {:induction false} StringifyWellFormed(s: seq<Unit>, afterLead: bool)
    requires afterLead ==> s != [] && 0xDC00 <= s[0] <= 0xDFFF
    ensures WellFormed(StringifyBody(s, afterLead) + [0x22], afterLead)
  {
    hide UnicodeEscape;
    if s == [] {
      assert [] + [0x22] == [0x22];
      AsciiIsWellFormed([0x22], []);
      assert [0x22] + [] == [0x22];
    } else {
      var leads := !afterLead && IsLead(s[0]) && |s| > 1 && IsTrail(s[1]);
      var first, rest := StringifyUnit(s[0], afterLead || leads), StringifyBody(s[1..], leads) + [0x22];
      StringifyWellFormed(s[1..], leads);
      assert StringifyBody(s, afterLead) + [0x22] == first + rest;
      if IsAscii(first) && !afterLead && !leads {
        AsciiIsWellFormed(first, rest);
      } else {
        assert first == [s[0]] && (first + rest)[1..] == rest;
      }
    }
  }

  /** Unit by unit, every surrogate taken as one of a pair. */
  function StringifyPaired(s: seq<Unit>): seq<Unit> {
    if s == [] then [] else StringifyUnit(s[0], true) + StringifyPaired(s[1..])
  }

  /** Well-formed strings keep their surrogate pairs. */
  lemma {:induction false} PairsKept(s: seq<Unit>, afterLead: bool)
    requires WellFormed(s, afterLead)
    ensures StringifyBody(s, afterLead) == StringifyPaired(s)
  {
    if s != [] {
      var leads := !afterLead && IsLead(s[0]) && |s| > 1 && IsTrail(s[1]);
      PairsKept(s[1..], leads);
    }
  }

  // ---------------------------------------------------------------- round trip

  /** Escaping a concatenation escapes its parts, so a literal is escaped in place in any document. */
  lemma {:induction false} EnsureAsciiConcat(a: seq<Unit>, b: seq<Unit>)
    ensures EnsureAscii(a + b) == EnsureAscii(a) + EnsureAscii(b)
    decreases |b|
  {
    if b == [] {
      assert a + b == a;
    } else {
      assert (a + b)[..|a + b| - 1] == a + b[..|b| - 1];
      EnsureAsciiConcat(a, b[..|b| - 1]);
    }
  }

  lemma {:induction false} EnsureAsciiKeeps(s: seq<Unit>)
    requires IsAscii(s)
    ensures EnsureAscii(s) == s
  {
    if s != [] { EnsureAsciiKeeps(s[..|s| - 1]); }
  }

  lemma HexRoundTrip(d: nat)
    requires d < 16
    ensures HexValue(HexDigit(d)) == Some(d)
  {
  }

  lemma DecodeHex(a: nat, b: nat, c: nat, d: nat, rest: seq<Unit>)
    requires a < 16 && b < 16 && c < 16 && d < 16
    ensures var s := [0x5C, 0x75, HexDigit(a), HexDigit(b), HexDigit(c), HexDigit(d)] + rest;
            DecodeUnit(s) == Got(a * 0x1000 + b * 0x100 + c * 0x10 + d, rest)
  {
    hide HexDigit, HexValue;
    HexRoundTrip(a);
    HexRoundTrip(b);
    HexRoundTrip(c);
    HexRoundTrip(d);
    var s := [0x5C, 0x75, HexDigit(a), HexDigit(b), HexDigit(c), HexDigit(d)] + rest;
    assert s[6..] == rest;
  }

  lemma HexDigits(u: Unit)
    ensures u / 0x1000 < 16
    ensures u / 0x1000 * 0x1000 + u / 0x100 % 16 * 0x100 + u / 0x10 % 16 * 0x10 + u % 16 == u
  {
    assert u / 0x100 / 16 == u / 0x1000;
    assert u / 0x10 / 16 == u / 0x100;
  }

  lemma DecodeEscape(u: Unit, rest: seq<Unit>)
    ensures DecodeUnit(UnicodeEscape(u) + rest) == Got(u, rest)
  {
    hide DecodeUnit, HexDigit;
    HexDigits(u);
    DecodeHex(u / 0x1000, u / 0x100 % 16, u / 0x10 % 16, u % 16, rest);
  }

  /** Whatever `JSON.stringify` makes of a unit, its ASCII form reads back as that unit. */
  lemma DecodeAsciiUnit(u: Unit, paired: bool, rest: seq<Unit>)
    ensures var e := EnsureAscii(StringifyUnit(u, paired));
            e != [] && e[0] != 0x22 && DecodeUnit(e + rest) == Got(u, rest)
  {
    hide UnicodeEscape, DecodeUnit, EnsureAscii;
    var raw := StringifyUnit(u, paired);
    if ShortEscape(u).Some? {
      EnsureAsciiKeeps(raw);
      DecodeShort(u, rest);
    } else if raw == UnicodeEscape(u) {
      EnsureAsciiKeeps(raw);
      DecodeEscape(u, rest);
      EscapeStart(u);
    } else if u > 0x7F {
      EnsureAsciiOne(u);
      DecodeEscape(u, rest);
      EscapeStart(u);
    } else {
      EnsureAsciiOne(u);
      DecodeRaw(u, rest);
    }
  }

  lemma EscapeStart(u: Unit)
    ensures UnicodeEscape(u)[0] == 0x5C
  {
  }

  lemma EnsureAsciiOne(u: Unit)
    ensures EnsureAscii([u]) == if u > 0x7F then UnicodeEscape(u) else [u]
  {
    assert [u][..0] == [];
  }

  lemma DecodeShort(u: Unit, rest: seq<Unit>)
    requires ShortEscape(u).Some?
    ensures DecodeUnit([0x5C, ShortEscape(u).value] + rest) == Got(u, rest)
  {
    assert ([0x5C, ShortEscape(u).value] + rest)[2..] == rest;
  }

  lemma DecodeRaw(u: Unit, rest: seq<Unit>)
    requires u >= 0x20 && u != 0x22 && u != 0x5C
    ensures DecodeUnit([u] + rest) == Got(u, rest)
  {
    assert ([u] + rest)[1..] == rest;
  }

  lemma {:induction false} DecodeAsciiBody(s: seq<Unit>, afterLead: bool)
    ensures DecodeBody(EnsureAscii(StringifyBody(s, afterLead)) + [0x22]) == Some(s)
  {
    hide DecodeUnit, StringifyUnit, EnsureAscii;
    if s == [] {
      EnsureAsciiKeeps([]);
      assert [] + [0x22] == [0x22];
    } else {
      var leads := !afterLead && IsLead(s[0]) && |s| > 1 && IsTrail(s[1]);
      var first, tail := StringifyUnit(s[0], afterLead || leads), StringifyBody(s[1..], leads);
      EnsureAsciiConcat(first, tail);
      var rest := EnsureAscii(tail) + [0x22];
      assert EnsureAscii(first + tail) + [0x22] == EnsureAscii(first) + rest;
      DecodeAsciiUnit(s[0], afterLead || leads, rest);
      DecodeAsciiBody(s[1..], leads);
      assert s == [s[0]] + s[1..];
    }
  }

  /** ASCII escaping loses nothing: the literal is pure ASCII and decodes to the original units. */
  lemma AsciiLiteralRoundTrip(s: seq<Unit>)
    ensures IsAscii(EnsureAscii(Stringify(s))) && Decode(EnsureAscii(Stringify(s))) == Some(s)
  {
    hide EnsureAscii, StringifyBody, DecodeBody;
    var body := StringifyBody(s, false);
    AllAscii(Stringify(s));
    EnsureAsciiConcat([0x22] + body, [0x22]);
    EnsureAsciiConcat([0x22], body);
    EnsureAsciiKeeps([0x22]);
    DecodeAsciiBody(s, false);
    assert EnsureAscii(Stringify(s))[1..] == EnsureAscii(body) + [0x22];
  }

  lemma {:induction false} AllAscii(s: seq<Unit>)
    ensures IsAscii(EnsureAscii(s))
  {
    if s != [] { AllAscii(s[..|s| - 1]); }
  }

  /** Distinct strings give distinct signed bytes. */
  lemma AsciiLiteralInjective(s: seq<Unit>, t: seq<Unit>)
    ensures EnsureAscii(Stringify(s)) == EnsureAscii(Stringify(t)) <==> s == t
  {
    AsciiLiteralRoundTrip(s);
    AsciiLiteralRoundTrip(t);
  }
}
