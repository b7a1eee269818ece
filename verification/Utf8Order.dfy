/**
 * Key order. The harnesses sort object keys by their UTF-8 bytes
 * (`bytes.Compare`, `bytes.encode("utf-8")`, `Buffer.compare`). The encoding is
 * the one of section 3 of RFC 3629; a Dafny `char` is a Unicode scalar value.
 */
module Utf8Order {

  /** Strict lexicographic order, a proper prefix coming first. */
  predicate Less(a: seq<nat>, b: seq<nat>) {
    b != [] && (a == [] || a[0] < b[0] || (a[0] == b[0] && Less(a[1..], b[1..])))
  }

  lemma {:induction false} LessIrreflexive(a: seq<nat>)
    ensures !Less(a, a)
  {
    if a != [] { LessIrreflexive(a[1..]); }
  }

  lemma {:induction false} LessTransitive(a: seq<nat>, b: seq<nat>, c: seq<nat>)
    requires Less(a, b) && Less(b, c)
    ensures Less(a, c)
  {
    if a != [] && a[0] == b[0] == c[0] { LessTransitive(a[1..], b[1..], c[1..]); }
  }

  lemma {:induction false} LessTotal(a: seq<nat>, b: seq<nat>)
    ensures Less(a, b) || a == b || Less(b, a)
  {
    if a != [] && b != [] && a[0] == b[0] {
      LessTotal(a[1..], b[1..]);
      assert a == [a[0]] + a[1..] && b == [b[0]] + b[1..];
    }
  }

  /** A shared prefix does not affect the comparison. */
  lemma {:induction false} LessAfterPrefix(p: seq<nat>, a: seq<nat>, b: seq<nat>)
    ensures Less(p + a, p + b) == Less(a, b)
  {
    if p == [] {
      assert p + a == a && p + b == b;
    } else {
      assert (p + a)[1..] == p[1..] + a && (p + b)[1..] == p[1..] + b;
      LessAfterPrefix(p[1..], a, b);
    }
  }

  /** The first position at which two sequences differ decides. */
  lemma LessAtDifference(a: seq<nat>, b: seq<nat>, k: nat)
    requires k < |a| && k < |b| && a[..k] == b[..k] && a[k] < b[k]
    ensures Less(a, b)
  {
    assert a == a[..k] + a[k..] && b == a[..k] + b[k..];
    LessAfterPrefix(a[..k], a[k..], b[k..]);
  }

  /** Lexicographic order said position by position: after `k` equal elements `a` ends first or has the smaller one. */
  ghost predicate Precedes(a: seq<nat>, b: seq<nat>) {
    exists k: nat :: PrecedesAt(a, b, k)
  }

  predicate PrecedesAt(a: seq<nat>, b: seq<nat>, k: nat) {
    k <= |a| && k < |b| && a[..k] == b[..k] && (k == |a| || a[k] < b[k])
  }

  /** The comparison is lexicographic order. */
  lemma {:induction false} LessIff(a: seq<nat>, b: seq<nat>)
    ensures Less(a, b) <==> Precedes(a, b)
  {
    if Less(a, b) {
      var k := WhereLess(a, b);
    }
    if Precedes(a, b) {
      var k: nat :| PrecedesAt(a, b, k);
      if k == |a| {
        assert a == a[..k] + [] && b == a[..k] + b[k..];
        LessAfterPrefix(a[..k], [], b[k..]);
      } else {
        LessAtDifference(a, b, k);
      }
    }
  }

  lemma {:induction false} WhereLess(a: seq<nat>, b: seq<nat>) returns (k: nat)
    requires Less(a, b)
    ensures PrecedesAt(a, b, k)
  {
    k := 0;
    if a != [] && a[0] == b[0] {
      k := WhereLess(a[1..], b[1..]);
      assert a[..k + 1] == [a[0]] + a[1..][..k] && b[..k + 1] == [b[0]] + b[1..][..k];
      k := k + 1;
    }
  }

  /** A proper prefix comes first. */
  lemma PrefixFirst(a: seq<nat>, b: seq<nat>)
    requires a < b
    ensures Less(a, b)
  {
    LessIff(a, b);
    assert PrecedesAt(a, b, |a|);
  }

  function CodePoints(s: string): (r: seq<nat>)
    ensures |r| == |s|
  {
    seq(|s|, i requires 0 <= i < |s| => s[i] as nat)
  }

  /** The one to four octets of one scalar value. */
  function EncodeChar(c: char): (r: seq<nat>)
    ensures 1 <= |r| <= 4
    ensures forall i :: 0 <= i < |r| ==> r[i] < 256
  {
    var v := c as nat;
    if v < 0x80 then [v]
    else if v < 0x800 then [0xC0 + v / 0x40, 0x80 + v % 0x40]
    else if v < 0x10000 then [0xE0 + v / 0x1000, 0x80 + v / 0x40 % 0x40, 0x80 + v % 0x40]
    else [0xF0 + v / 0x40000, 0x80 + v / 0x1000 % 0x40, 0x80 + v / 0x40 % 0x40, 0x80 + v % 0x40]
  }

  function Encode(s: string): (r: seq<nat>) {
    if s == "" then [] else EncodeChar(s[0]) + Encode(s[1..])
  }

  predicate IsTail(b: nat) {
    0x80 <= b <= 0xBF
  }

  /**
   * The octet sequences of section 4 of RFC 3629, and the scalar value that the
   * bits of each of them stand for.
   */
  lemma EncodingTable(c: char)
    ensures var v, e := c as nat, EncodeChar(c);
            && (|e| == 1 <==> v <= 0x7F) && (|e| == 2 <==> 0x80 <= v <= 0x7FF) && (|e| == 4 <==> 0x10000 <= v)
            && (|e| == 1 ==> e[0] == v)
            && (|e| == 2 ==> 0xC2 <= e[0] <= 0xDF && IsTail(e[1]) && v == (e[0] - 0xC0) * 64 + (e[1] - 0x80))
            && (|e| == 3 ==> 0xE0 <= e[0] <= 0xEF && IsTail(e[1]) && IsTail(e[2])
                             && v == (e[0] - 0xE0) * 4096 + (e[1] - 0x80) * 64 + (e[2] - 0x80))
            && (|e| == 4 ==> 0xF0 <= e[0] <= 0xF4 && IsTail(e[1]) && IsTail(e[2]) && IsTail(e[3])
                             && v == (e[0] - 0xF0) * 262144 + (e[1] - 0x80) * 4096 + (e[2] - 0x80) * 64 + (e[3] - 0x80))
  {
    var v := c as nat;
    LeadOfLength(v);
    Shift(v);
    assert v == v / 0x40 * 0x40 + v % 0x40;
    assert v / 0x40 == v / 0x1000 * 0x40 + v / 0x40 % 0x40;
    assert v / 0x1000 / 0x40 == v / 0x40000;
    assert v / 0x1000 == v / 0x40000 * 0x40 + v / 0x1000 % 0x40;
  }

  /** The encoding of a string is that of its characters, one after the other. */
  lemma {:induction false} EncodeConcat(s: string, t: string)
    ensures Encode(s + t) == Encode(s) + Encode(t)
  {
    if s == "" {
      assert s + t == t;
    } else {
      assert (s + t)[1..] == s[1..] + t;
      EncodeConcat(s[1..], t);
    }
  }

  /** A smaller scalar value has a smaller encoding, whatever follows either of them. */
  lemma EncodeCharMonotone(c: char, d: char, x: seq<nat>, y: seq<nat>)
    requires c < d
    ensures Less(EncodeChar(c) + x, EncodeChar(d) + y)
  {
    var v, w := c as nat, d as nat;
    var a, b := EncodeChar(c), EncodeChar(d);
    var k := FirstDifference(c, d);
    assert (a + x)[..k] == a[..k] == b[..k] == (b + y)[..k];
    LessAtDifference(a + x, b + y, k);
  }

  lemma FirstDifference(c: char, d: char) returns (k: nat)
    requires c < d
    ensures k < |EncodeChar(c)| && k < |EncodeChar(d)|
    ensures EncodeChar(c)[..k] == EncodeChar(d)[..k] && EncodeChar(c)[k] < EncodeChar(d)[k]
  {
    var a, b := EncodeChar(c), EncodeChar(d);
    if a[0] < b[0] {
      k := 0;
    } else {
      SameLead(c as nat, d as nat, c, d);
      k := if a[1] < b[1] then 1 else if a[2] < b[2] then 2 else 3;
      assert forall i :: 0 <= i < k ==> a[i] == b[i];
    }
  }

  /** When the leading octets do not decide, a later octet of the same position does. */
  lemma SameLead(v: nat, w: nat, c: char, d: char)
    requires v == c as nat && w == d as nat && v < w && EncodeChar(c)[0] >= EncodeChar(d)[0]
    ensures var a, b := EncodeChar(c), EncodeChar(d);
            && |a| == |b| > 1 && a[0] == b[0]
            && (a[1] < b[1] || (a[1] == b[1] && |a| > 2 &&
                (a[2] < b[2] || (a[2] == b[2] && |a| > 3 && a[3] < b[3]))))
  {
    LeadOfLength(v);
    LeadOfLength(w);
    if v < 0x800 {
      LastDigit(v, w);
    } else if v < 0x10000 {
      LastTwoDigits(v, w);
    } else {
      LastThreeDigits(v, w);
    }
  }

  /** The ranges of the leading octet for the longer encodings do not overlap. */
  lemma LeadOfLength(v: nat)
    requires v < 0x110000
    ensures 0x80 <= v < 0x800 ==> 2 <= v / 0x40 < 0x20
    ensures 0x800 <= v < 0x10000 ==> 0 <= v / 0x1000 < 0x10
    ensures 0x10000 <= v ==> 0 <= v / 0x40000 < 8
  {
  }

  lemma LastTwoDigits(v: nat, w: nat)
    requires v < w
    ensures v / 0x1000 < w / 0x1000
         || (v / 0x1000 == w / 0x1000
             && (v / 0x40 % 0x40 < w / 0x40 % 0x40
                 || (v / 0x40 % 0x40 == w / 0x40 % 0x40 && v % 0x40 < w % 0x40)))
  {
    LastDigit(v, w);
    LastDigit(v / 0x40, w / 0x40);
    Shift(v);
    Shift(w);
  }

  lemma LastThreeDigits(v: nat, w: nat)
    requires v < w
    ensures v / 0x40000 < w / 0x40000
         || (v / 0x40000 == w / 0x40000
             && (v / 0x1000 % 0x40 < w / 0x1000 % 0x40
                 || (v / 0x1000 % 0x40 == w / 0x1000 % 0x40
                     && (v / 0x40 % 0x40 < w / 0x40 % 0x40
                         || (v / 0x40 % 0x40 == w / 0x40 % 0x40 && v % 0x40 < w % 0x40)))))
  {
    LastDigit(v, w);
    if v / 0x40 < w / 0x40 { LastTwoDigits(v / 0x40, w / 0x40); }
    Shift(v);
    Shift(w);
  }

  lemma Shift(v: nat)
    ensures v / 0x40 / 0x40 == v / 0x1000
    ensures v / 0x40 / 0x1000 == v / 0x40000
  {
  }

  lemma LastDigit(v: nat, w: nat)
    ensures v < w ==> v / 0x40 < w / 0x40 || (v / 0x40 == w / 0x40 && v % 0x40 < w % 0x40)
    ensures v == w ==> v / 0x40 == w / 0x40 && v % 0x40 == w % 0x40
  {
  }

  /** Byte order of the encodings is code point order of the strings. */
  lemma {:induction false} ByteOrderIsCodePointOrder(a: string, b: string)
    ensures Less(Encode(a), Encode(b)) <==> Less(CodePoints(a), CodePoints(b))
  {
    if a != "" && b != "" {
      assert CodePoints(a)[1..] == CodePoints(a[1..]) && CodePoints(b)[1..] == CodePoints(b[1..]);
      if a[0] == b[0] {
        LessAfterPrefix(EncodeChar(a[0]), Encode(a[1..]), Encode(b[1..]));
        ByteOrderIsCodePointOrder(a[1..], b[1..]);
      } else if a[0] < b[0] {
        EncodeCharMonotone(a[0], b[0], Encode(a[1..]), Encode(b[1..]));
      } else {
        EncodeCharMonotone(b[0], a[0], Encode(b[1..]), Encode(a[1..]));
        LessAsymmetric(Encode(b), Encode(a));
      }
    }
  }

  lemma LessAsymmetric(a: seq<nat>, b: seq<nat>)
    requires Less(a, b)
    ensures !Less(b, a)
  {
    if Less(b, a) {
      LessTransitive(a, b, a);
      LessIrreflexive(a);
    }
  }

  /** Distinct strings have distinct encodings, so no two keys compare equal. */
  lemma EncodeInjective(a: string, b: string)
    requires Encode(a) == Encode(b)
    ensures a == b
  {
    ByteOrderIsCodePointOrder(a, b);
    ByteOrderIsCodePointOrder(b, a);
    LessIrreflexive(Encode(a));
    LessTotal(CodePoints(a), CodePoints(b));
    assert forall i :: 0 <= i < |a| ==> CodePoints(a)[i] == a[i] as nat;
    assert forall i :: 0 <= i < |b| ==> CodePoints(b)[i] == b[i] as nat;
  }
}
