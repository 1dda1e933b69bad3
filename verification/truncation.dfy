/** Truncation of a response to a byte budget without splitting a character (RFC 3629, sections 3 and 4). */
module Truncation {
  import opened Common

  type Scalar = c: int | 0 <= c < 0xD800 || 0xE000 <= c < 0x11_0000

  // Encoding

  /** The last six bits of `n`, as a continuation byte. */
  function Tail(n: nat): Byte { 0x80 + n % 0x40 }

  function EncodeChar(c: Scalar): (b: seq<Byte>)
    ensures 1 <= |b| <= 4
  {
    if c < 0x80 then [c]
    else if c < 0x800 then [0xC0 + c / 0x40, Tail(c)]
    else if c < 0x1_0000 then [0xE0 + c / 0x40 / 0x40, Tail(c / 0x40), Tail(c)]
    else [0xF0 + c / 0x40 / 0x40 / 0x40, Tail(c / 0x40 / 0x40), Tail(c / 0x40), Tail(c)]
  }

  function Encode(text: seq<Scalar>): seq<Byte> {
    if text == [] then [] else EncodeChar(text[0]) + Encode(text[1..])
  }

  // Strict decoding: the sequences that section 4 of RFC 3629 lists, and no others

  predicate IsTail(b: Byte) { 0x80 <= b <= 0xBF }

  predicate IsTwo(b: seq<Byte>) { |b| >= 2 && 0xC2 <= b[0] <= 0xDF && IsTail(b[1]) }

  predicate IsThree(b: seq<Byte>) {
    && |b| >= 3 && IsTail(b[1]) && IsTail(b[2])
    && ((b[0] == 0xE0 && 0xA0 <= b[1]) || 0xE1 <= b[0] <= 0xEC || (b[0] == 0xED && b[1] <= 0x9F) || 0xEE <= b[0] <= 0xEF)
  }

  predicate IsFour(b: seq<Byte>) {
    && |b| >= 4 && IsTail(b[1]) && IsTail(b[2]) && IsTail(b[3])
    && ((b[0] == 0xF0 && 0x90 <= b[1]) || 0xF1 <= b[0] <= 0xF3 || (b[0] == 0xF4 && b[1] <= 0x8F))
  }

  /** Six more bits. */
  function Shift(n: int, tail: Byte): int { n * 0x40 + (tail as int - 0x80) }

  /** The first character and its length in bytes. */
  function DecodeChar(b: seq<Byte>): (r: Option<(Scalar, nat)>)
    ensures r.Some? ==> 1 <= r.value.1 <= |b|
  {
    if b == [] then None
    else
      var lead := b[0] as int;
      if lead < 0x80 then Some((lead, 1))
      else if IsTwo(b) then Some((Shift(lead - 0xC0, b[1]), 2))
      else if IsThree(b) then Some((Shift(Shift(lead - 0xE0, b[1]), b[2]), 3))
      else if IsFour(b) then Some((Shift(Shift(Shift(lead - 0xF0, b[1]), b[2]), b[3]), 4))
      else None
  }

  /** `bytes.decode("utf-8")`; None stands for UnicodeDecodeError. */
  function Decode(b: seq<Byte>): Option<seq<Scalar>>
    decreases |b|
  {
    if b == [] then Some([])
    else
      match DecodeChar(b)
      case None => None
      case Some((c, n)) =>
        match Decode(b[n..])
        case None => None
        case Some(rest) => Some([c] + rest)
  }

  lemma ShiftTail(n: nat)
    ensures Shift(n / 0x40, Tail(n)) == n && IsTail(Tail(n))
  {
  }

  lemma TailShift(n: nat, tail: Byte)
    requires IsTail(tail)
    ensures Shift(n, tail) >= 0 && Shift(n, tail) / 0x40 == n && Tail(Shift(n, tail)) == tail
  {
  }

  lemma DecodeEncodedChar(c: Scalar, rest: seq<Byte>)
    ensures DecodeChar(EncodeChar(c) + rest) == Some((c, |EncodeChar(c)|))
  {
    if c < 0x80 {
    } else if c < 0x800 {
      DecodeTwo(c, rest);
    } else if c < 0x1_0000 {
      DecodeThree(c, rest);
    } else {
      DecodeFour(c, rest);
    }
  }

  lemma DecodeTwo(c: Scalar, rest: seq<Byte>)
    requires 0x80 <= c < 0x800
    ensures DecodeChar(EncodeChar(c) + rest) == Some((c, 2))
  {
    ShiftTail(c);
    assert IsTwo(EncodeChar(c) + rest);
  }

  lemma DecodeThree(c: Scalar, rest: seq<Byte>)
    requires 0x800 <= c < 0x1_0000
    ensures DecodeChar(EncodeChar(c) + rest) == Some((c, 3))
  {
    var b := EncodeChar(c) + rest;
    ShiftTail(c);
    ShiftTail(c / 0x40);
    assert IsThree(b) && !IsTwo(b);
  }

  lemma DecodeFour(c: Scalar, rest: seq<Byte>)
    requires 0x1_0000 <= c
    ensures DecodeChar(EncodeChar(c) + rest) == Some((c, 4))
  {
    var b := EncodeChar(c) + rest;
    ShiftTail(c);
    ShiftTail(c / 0x40);
    ShiftTail(c / 0x40 / 0x40);
    assert IsFour(b) && !IsThree(b) && !IsTwo(b);
  }

  /** A decoded character re-encodes to the bytes it came from: no overlong forms, no surrogates. */
  lemma EncodeDecodedChar(b: seq<Byte>)
    requires DecodeChar(b).Some?
    ensures var (c, n) := DecodeChar(b).value; EncodeChar(c) == b[..n]
  {
    if b[0] < 0x80 {
    } else if IsTwo(b) {
      TailShift(b[0] - 0xC0, b[1]);
    } else if IsThree(b) {
      EncodeThree(b);
    } else {
      EncodeFour(b);
    }
  }

  lemma EncodeThree(b: seq<Byte>)
    requires IsThree(b) && !IsTwo(b)
    ensures var (c, n) := DecodeChar(b).value; n == 3 && EncodeChar(c) == [b[0], b[1], b[2]] == b[..3]
  {
    TailShift(b[0] - 0xE0, b[1]);
    TailShift(Shift(b[0] - 0xE0, b[1]), b[2]);
  }

  lemma EncodeFour(b: seq<Byte>)
    requires IsFour(b) && !IsThree(b) && !IsTwo(b)
    ensures var (c, n) := DecodeChar(b).value; n == 4 && EncodeChar(c) == [b[0], b[1], b[2], b[3]] == b[..4]
  {
    var first := b[0] - 0xF0;
    TailShift(first, b[1]);
    var second := Shift(first, b[1]);
    TailShift(second, b[2]);
    var third := Shift(second, b[2]);
    TailShift(third, b[3]);
    var c := Shift(third, b[3]);
    assert DecodeChar(b) == Some((c, 4)) && c >= 0x1_0000;
    assert c / 0x40 == third && third / 0x40 == second && second / 0x40 == first;
  }

  /** Decoding undoes encoding. */
  lemma {:induction false} DecodeEncode(text: seq<Scalar>)
    ensures Decode(Encode(text)) == Some(text)
  {
    if text != [] {
      var e, rest := EncodeChar(text[0]), Encode(text[1..]);
      DecodeEncode(text[1..]);
      DecodeEncodedChar(text[0], rest);
      assert Encode(text) == e + rest && (e + rest)[|e|..] == rest;
      assert [text[0]] + text[1..] == text;
    }
  }

  /** Encoding undoes decoding: the decodable byte strings are exactly the encodings. */
  lemma {:induction false} EncodeDecode(b: seq<Byte>)
    requires Decode(b).Some?
    ensures Encode(Decode(b).value) == b
    decreases |b|
  {
    if b != [] {
      var (c, n) := DecodeChar(b).value;
      var front, back := b[..n], b[n..];
      assert b == front + back;
      EncodeDecodedChar(b);
      EncodeDecode(back);
      var rest := Decode(back).value;
      assert Decode(b) == Some([c] + rest);
      EncodeFront(c, rest);
    }
  }

  lemma EncodeFront(c: Scalar, rest: seq<Scalar>)
    ensures Encode([c] + rest) == EncodeChar(c) + Encode(rest)
  {
    assert ([c] + rest)[1..] == rest;
  }

  lemma PartOfCharFails(c: Scalar, k: nat)
    requires 0 < k < |EncodeChar(c)|
    ensures Decode(EncodeChar(c)[..k]).None?
  {
    var part := EncodeChar(c)[..k];
    assert part[0] == EncodeChar(c)[0];
    assert DecodeChar(part).None?;
  }

  /** How many leading characters fit into `limit` bytes. */
  function Fit(text: seq<Scalar>, limit: nat): (n: nat)
    ensures n <= |text|
  {
    if text == [] || |EncodeChar(text[0])| > limit then 0
    else 1 + Fit(text[1..], limit - |EncodeChar(text[0])|)
  }

  function Size(text: seq<Scalar>): nat { |Encode(text)| }

  /** `Fit` is the longest prefix within the limit; it stops less than four bytes short. */
  lemma {:induction false} FitIsLongest(text: seq<Scalar>, limit: nat)
    ensures
      var n := Fit(text, limit);
      && Size(text[..n]) <= limit
      && (n < |text| ==> limit < Size(text[..n + 1]) <= Size(text[..n]) + 4)
      && Encode(text[..n]) <= Encode(text)
      && (n == |text| <==> Size(text) <= limit)
  {
    var n := Fit(text, limit);
    if text == [] || |EncodeChar(text[0])| > limit {
      assert text[..0] == [];
      if text != [] {
        assert text[..1][0] == text[0] && text[..1][1..] == [];
        assert Encode(text[..1]) == EncodeChar(text[0]) + [];
      }
    } else {
      FitIsLongest(text[1..], limit - |EncodeChar(text[0])|);
      assert text[..n][0] == text[0] && text[..n][1..] == text[1..][..n - 1];
      if n < |text| {
        assert text[..n + 1][0] == text[0] && text[..n + 1][1..] == text[1..][..n];
      }
    }
  }

  /** Cutting at `k` bytes decodes exactly when no character is cut. */
  lemma {:induction false} CutDecodes(text: seq<Scalar>, k: nat)
    requires k <= Size(text)
    ensures
      var n := Fit(text, k);
      var cut := Encode(text)[..k];
      Decode(cut) == if Size(text[..n]) == k then Some(text[..n]) else None
  {
    var cut := Encode(text)[..k];
    var n := Fit(text, k);
    if text == [] {
    } else if |EncodeChar(text[0])| > k {
      assert text[..0] == [];
      if k > 0 {
        assert cut == EncodeChar(text[0])[..k];
        PartOfCharFails(text[0], k);
      }
    } else {
      var e := EncodeChar(text[0]);
      var rest := Encode(text[1..])[..k - |e|];
      CutDecodes(text[1..], k - |e|);
      assert cut == e + rest;
      DecodeEncodedChar(text[0], rest);
      assert cut[|e|..] == rest;
      PrefixByParts(text, n);
    }
  }

  lemma PrefixByParts(text: seq<Scalar>, n: nat)
    requires 0 < n <= |text|
    ensures text[..n] == [text[0]] + text[1..][..n - 1] && text[..n][1..] == text[1..][..n - 1]
  {
  }

  // The code

  /** What the truncation of any byte string promises: the longest decodable prefix within the limit. */
  ghost predicate IsLongestDecodable(bytes: seq<Byte>, limit: nat, end: int, text: seq<Scalar>) {
    && 0 <= end <= limit && end <= |bytes|
    && Decode(bytes[..end]) == Some(text)
    && forall e :: end < e <= limit && e <= |bytes| ==> Decode(bytes[..e]).None?
  }

  method TruncateUtf8Prefix(bytes: seq<Byte>, limit: nat) returns (text: seq<Scalar>, trimmed: bool)
    ensures exists end :: IsLongestDecodable(bytes, limit, end, text) && (trimmed <==> end < limit && end < |bytes|)
  {
    var candidate := if limit < |bytes| then bytes[..limit] else bytes;
    PrefixesOfCandidate(bytes, limit);
    var decoded := Decode(candidate);
    if decoded.Some? {
      assert IsLongestDecodable(bytes, limit, |candidate|, decoded.value);
      return decoded.value, false;
    }
    var end := |candidate|;
    while end > 0
      invariant 0 <= end <= |candidate|
      invariant forall e :: end < e <= |candidate| ==> Decode(candidate[..e]).None?
    {
      var part := Decode(candidate[..end]);
      if part.Some? {
        assert IsLongestDecodable(bytes, limit, end, part.value);
        return part.value, true;
      }
      end := end - 1;
    }
    assert IsLongestDecodable(bytes, limit, 0, []);
    return [], true;
  }

  lemma PrefixesOfCandidate(bytes: seq<Byte>, limit: nat)
    ensures
      var candidate := if limit < |bytes| then bytes[..limit] else bytes;
      && candidate[..|candidate|] == candidate
      && forall e :: 0 <= e <= |candidate| ==> candidate[..e] == bytes[..e]
  {
  }

  /** The limit lies strictly inside the encoding of a character. */
  ghost predicate FallsInsideChar(text: seq<Scalar>, limit: nat) {
    exists j :: 0 <= j < |text| && Size(text[..j]) < limit < Size(text[..j + 1])
  }

  lemma SizeGrows(text: seq<Scalar>, i: nat, j: nat)
    requires i <= j <= |text|
    ensures Size(text[..i]) <= Size(text[..j])
    ensures i < j ==> Size(text[..i]) < Size(text[..j])
  {
    if i < j {
      EncodeConcat(text[..i], text[i..j]);
      assert text[..j] == text[..i] + text[i..j];
    }
  }

  lemma {:induction false} EncodeConcat(a: seq<Scalar>, b: seq<Scalar>)
    ensures Encode(a + b) == Encode(a) + Encode(b)
  {
    if a == [] {
      assert a + b == b;
    } else {
      FrontAndRest(a, b);
      EncodeConcat(a[1..], b);
      Associate(EncodeChar(a[0]), Encode(a[1..]), Encode(b));
    }
  }

  /** Cuts that decode are character boundaries, and the longest one is `Fit`. */
  lemma LongestDecodableIsFit(text: seq<Scalar>, limit: nat, end: nat, result: seq<Scalar>)
    requires IsLongestDecodable(Encode(text), limit, end, result)
    ensures result == text[..Fit(text, limit)] && end == Size(result)
  {
    var n, m := Fit(text, limit), Fit(text, end);
    FitIsLongest(text, limit);
    CutDecodes(text, end);
    assert result == text[..m] && Size(text[..m]) == end;
    var fit := Size(text[..n]);
    FitOfPrefix(text, n);
    CutDecodes(text, fit);
    if n < m { SizeGrows(text, n + 1, m); }
    if m < n { SizeGrows(text, m, n); }
  }

  /** A limit inside the text splits a character exactly when the fitting prefix falls short of it. */
  lemma SplitsIffShort(text: seq<Scalar>, limit: nat)
    requires limit <= Size(text)
    ensures Size(text[..Fit(text, limit)]) < limit <==> FallsInsideChar(text, limit)
  {
    var n := Fit(text, limit);
    FitIsLongest(text, limit);
    assert text[..|text|] == text;
    if FallsInsideChar(text, limit) {
      var j :| 0 <= j < |text| && Size(text[..j]) < limit < Size(text[..j + 1]);
      if j < n { SizeGrows(text, j + 1, n); }
      if n < j { SizeGrows(text, n + 1, j); }
    }
  }

  lemma NoSplitBeyondText(text: seq<Scalar>, limit: nat)
    requires limit >= Size(text)
    ensures !FallsInsideChar(text, limit)
  {
    assert text[..|text|] == text;
    if FallsInsideChar(text, limit) {
      var j :| 0 <= j < |text| && Size(text[..j]) < limit < Size(text[..j + 1]);
      SizeGrows(text, j + 1, |text|);
    }
  }

  /**
   For a valid text the result is its longest prefix of whole characters within the limit. It
   falls at most three bytes short, and the flag says exactly that the limit splits a character.
   */
  lemma TruncationOfValidText(text: seq<Scalar>, limit: nat, end: nat, result: seq<Scalar>)
    requires IsLongestDecodable(Encode(text), limit, end, result)
    ensures result == text[..Fit(text, limit)] && end == Size(result) <= limit
    ensures limit <= Size(text) ==> limit - end <= 3
    ensures end < limit && end < Size(text) <==> FallsInsideChar(text, limit)
  {
    LongestDecodableIsFit(text, limit, end, result);
    FitIsLongest(text, limit);
    assert text[..|text|] == text;
    if limit <= Size(text) {
      SplitsIffShort(text, limit);
    } else {
      NoSplitBeyondText(text, limit);
    }
  }

  lemma {:induction false} FitOfPrefix(text: seq<Scalar>, n: nat)
    requires n <= |text|
    ensures Fit(text, Size(text[..n])) == n
  {
    if n == 0 {
      assert text[..0] == [];
    } else {
      assert text[..n][0] == text[0] && text[..n][1..] == text[1..][..n - 1];
      FitOfPrefix(text[1..], n - 1);
    }
  }

  datatype Policy = NoTruncation | Truncate | Summarize

  datatype Strategy = Strategy(maxResponseBytes: Option<int>, policy: Policy)

  /** The response is passed on, or replaced by its truncated content. */
  datatype Outcome = Unchanged | Content(text: seq<Scalar>, boundaryTrimmed: bool)

  predicate IsOverBudget(serialized: seq<Scalar>, strategy: Strategy) {
    && strategy.maxResponseBytes.Some?
    && 0 < strategy.maxResponseBytes.value < Size(serialized)
  }

  /** `serialized` is the payload itself if it is text, and its JSON form otherwise. */
  method ApplyTruncation(serialized: seq<Scalar>, strategy: Strategy) returns (outcome: Outcome)
    ensures outcome.Content? <==> IsOverBudget(serialized, strategy) && strategy.policy != NoTruncation
    ensures
      outcome.Content? ==>
        var limit := strategy.maxResponseBytes.value;
        && outcome.text == serialized[..Fit(serialized, limit)]
        && limit - 3 <= Size(outcome.text) <= limit
        && (outcome.boundaryTrimmed <==> FallsInsideChar(serialized, limit))
  {
    if strategy.maxResponseBytes.None? || strategy.maxResponseBytes.value <= 0 {
      return Unchanged;
    }
    var limit := strategy.maxResponseBytes.value;
    var bytes := Encode(serialized);
    if |bytes| <= limit {
      return Unchanged;
    }
    if strategy.policy == NoTruncation {
      return Unchanged;
    }
    var text, trimmed := TruncateUtf8Prefix(bytes, limit);
    ghost var end :| IsLongestDecodable(bytes, limit, end, text) && (trimmed <==> end < limit && end < |bytes|);
    TruncationOfValidText(serialized, limit, end, text);
    return Content(text, trimmed);
  }
}
