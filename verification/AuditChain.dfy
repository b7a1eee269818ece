/**
 * The hash chain over audit events in packages/conformance/src/validate.ts.
 * `hash` stands for SHA-256 as 64 lower-case hex digits. No function from all
 * strings to 64 digits is injective, so tamper evidence is stated as it is meant:
 * two histories with one head give a pair of different strings, both hashed on
 * the way, with the same digest.
 */
module AuditChain {

  const GENESIS: string := "OxDeAI::GENESIS::v1"

  /** Digests are 64 characters long; which ones does not matter here. */
  ghost predicate Digest64(hash: string -> string) {
    forall s :: |hash(s)| == 64
  }

  function Link(head: string, text: string): string {
    head + "\n" + text
  }

  function Head(hash: string -> string, genesis: string, texts: seq<string>): string {
    if texts == [] then genesis
    else hash(Link(Head(hash, genesis, texts[..|texts| - 1]), texts[|texts| - 1]))
  }

  /** Every string hashed on the way from the genesis input to the head. */
  function Hashed(hash: string -> string, texts: seq<string>): seq<string> {
    if texts == [] then [GENESIS]
    else
      var before := texts[..|texts| - 1];
      Hashed(hash, before) + [Link(Head(hash, hash(GENESIS), before), texts[|texts| - 1])]
  }

  lemma NoHeads(hash: string -> string, genesis: string)
    ensures Head(hash, genesis, []) == genesis
  {
  }

  lemma HeadStep(hash: string -> string, genesis: string, texts: seq<string>, i: nat)
    requires i < |texts|
    ensures Head(hash, genesis, texts[..i + 1]) == hash(Head(hash, genesis, texts[..i]) + "\n" + texts[i])
  {
    assert texts[..i + 1][..i] == texts[..i];
  }

  /** The loop over the events, recording every intermediate head. */
  method FoldEvents<E>(hash: string -> string, canonicalJson: E -> string, genesis: string, events: seq<E>)
    returns (head: string, heads: seq<string>)
    ensures var texts := seq(|events|, i requires 0 <= i < |events| => canonicalJson(events[i]));
            && head == Head(hash, genesis, texts)
            && |heads| == |events|
            && forall i :: 0 <= i < |events| ==> heads[i] == Head(hash, genesis, texts[..i + 1])
    ensures forall i {:trigger events[i]} :: 0 <= i < |events| ==>
              heads[i] == hash((if i == 0 then genesis else heads[i - 1]) + "\n" + canonicalJson(events[i]))
    ensures head == if events == [] then genesis else heads[|events| - 1]
  {
    ghost var texts := seq(|events|, i requires 0 <= i < |events| => canonicalJson(events[i]));
    hide Head;
    NoHeads(hash, genesis);
    assert texts[..0] == [];
    head := genesis;
    heads := [];
    for i := 0 to |events|
      invariant head == Head(hash, genesis, texts[..i])
      invariant |heads| == i && forall k :: 0 <= k < i ==> heads[k] == Head(hash, genesis, texts[..k + 1])
    {
      HeadStep(hash, genesis, texts, i);
      head := hash(head + "\n" + canonicalJson(events[i]));
      heads := heads + [head];
    }
    assert texts[..|events|] == texts;
    forall i | 0 <= i < |events|
      ensures heads[i] == hash((if i == 0 then genesis else heads[i - 1]) + "\n" + canonicalJson(events[i]))
    {
      HeadStep(hash, genesis, texts, i);
      if i == 0 { NoHeads(hash, genesis); }
    }
    if events != [] { assert texts[..|events| - 1 + 1] == texts; }
  }

  /** The chain starts from the digest of a fixed string, and the first link is over that digest. */
  lemma FirstHeads(hash: string -> string, text: string)
    ensures Head(hash, hash(GENESIS), []) == hash("OxDeAI::GENESIS::v1")
    ensures Head(hash, hash(GENESIS), [text]) == hash(hash("OxDeAI::GENESIS::v1") + "\n" + text)
  {
    assert [text][..0] == [];
  }

  /** The last string hashed. */
  function LastLink(hash: string -> string, texts: seq<string>): string {
    if texts == [] then GENESIS
    else Link(Head(hash, hash(GENESIS), texts[..|texts| - 1]), texts[|texts| - 1])
  }

  /** The head is always a digest of the last string hashed. */
  lemma LastHashed(hash: string -> string, texts: seq<string>)
    ensures LastLink(hash, texts) in Hashed(hash, texts)
    ensures Head(hash, hash(GENESIS), texts) == hash(LastLink(hash, texts))
    ensures texts != [] ==> forall s :: s in Hashed(hash, texts[..|texts| - 1]) ==> s in Hashed(hash, texts)
  {
  }

  /** Head, newline and text concatenate unambiguously because every head has 64 characters. */
  lemma LinkInjective(h: string, t: string, h': string, t': string)
    requires |h| == |h'| && Link(h, t) == Link(h', t')
    ensures h == h' && t == t'
  {
    assert Link(h, t)[..|h|] == h && Link(h', t')[..|h|] == h';
    assert Link(h, t)[|h| + 1..] == t && Link(h', t')[|h| + 1..] == t';
  }

  lemma HeadLength(hash: string -> string, texts: seq<string>)
    requires Digest64(hash)
    ensures |Head(hash, hash(GENESIS), texts)| == 64
  {
    LastHashed(hash, texts);
  }

  /**
   * Tamper evidence. From the same head, either the two sequences of canonical
   * texts are identical, of the same length too, or `x` and `y` are a collision.
   */
  lemma {:induction false} SameHead(hash: string -> string, a: seq<string>, b: seq<string>)
    returns (x: string, y: string)
    requires Digest64(hash)
    requires Head(hash, hash(GENESIS), a) == Head(hash, hash(GENESIS), b)
    ensures a == b || (x in Hashed(hash, a) && y in Hashed(hash, b) && x != y && hash(x) == hash(y))
  {
    hide Hashed, Head, Link;
    LastHashed(hash, a);
    LastHashed(hash, b);
    x, y := LastLink(hash, a), LastLink(hash, b);
    if x == y {
      SameLength(hash, a, b);
      if a != [] {
        var a', b' := a[..|a| - 1], b[..|b| - 1];
        HeadLength(hash, a');
        HeadLength(hash, b');
        LinkInjective(Head(hash, hash(GENESIS), a'), a[|a| - 1], Head(hash, hash(GENESIS), b'), b[|b| - 1]);
        x, y := SameHead(hash, a', b');
        assert a == a' + [a[|a| - 1]] && b == b' + [b[|b| - 1]];
      }
    }
  }

  /** The genesis input is too short to be a link. */
  lemma SameLength(hash: string -> string, a: seq<string>, b: seq<string>)
    requires Digest64(hash) && LastLink(hash, a) == LastLink(hash, b)
    ensures a == [] <==> b == []
  {
    hide Hashed, Head;
    if a != [] { HeadLength(hash, a[..|a| - 1]); }
    if b != [] { HeadLength(hash, b[..|b| - 1]); }
    assert |GENESIS| < 64;
  }

  /** Without a collision among the strings hashed, the head identifies the whole history. */
  lemma HeadIdentifiesHistory(hash: string -> string, a: seq<string>, b: seq<string>)
    requires Digest64(hash)
    requires forall x, y :: x in Hashed(hash, a) && y in Hashed(hash, b) && hash(x) == hash(y) ==> x == y
    ensures Head(hash, hash(GENESIS), a) == Head(hash, hash(GENESIS), b) <==> a == b
  {
    if Head(hash, hash(GENESIS), a) == Head(hash, hash(GENESIS), b) {
      var x, y := SameHead(hash, a, b);
    }
  }
}
