// udpChecksum of internal/socket/multicast.go against RFC 768 and section 2 of RFC 1071.
module Checksum {
  import opened Basics
  import opened Addresses

  const MAX_UDP_LENGTH := 65515

  // ---- The reference: ones'-complement addition with end-around carry ----

  function OnesAdd(a: uint16, b: uint16): uint16 {
    if a + b > 0xffff then a + b - 0xffff else a + b
  }

  function OnesSum(words: seq<uint16>): uint16 {
    if words == [] then 0 else OnesAdd(OnesSum(words[..|words| - 1]), words[|words| - 1])
  }

  function Word(hi: byte, lo: byte): uint16 {
    256 * hi + lo
  }

  // The i-th big-endian word of a byte string, an odd last byte being padded with zero.
  function WordAt(b: Bytes, i: nat): uint16
    requires 2 * i < |b|
  {
    Word(b[2 * i], if 2 * i + 1 < |b| then b[2 * i + 1] else 0)
  }

  // The first k words.
  function WordsTo(b: Bytes, k: nat): (words: seq<uint16>)
    requires 2 * k <= |b| + 1
    ensures |words| == k && forall i | 0 <= i < k :: words[i] == WordAt(b, i)
  {
    if k == 0 then [] else WordsTo(b, k - 1) + [WordAt(b, k - 1)]
  }

  function WordsOf(b: Bytes): seq<uint16> {
    WordsTo(b, (|b| + 1) / 2)
  }

  // In numbers: a word's first byte is its high octet, and an odd last byte is padded with a zero
  // after it.
  lemma WordsInNumbers(b: Bytes, i: nat)
    requires i < (|b| + 1) / 2
    ensures |WordsOf(b)| == (|b| + 1) / 2
    ensures WordsOf(b)[i] == 256 * (b[2 * i] as int) + if 2 * i + 1 < |b| then b[2 * i + 1] else 0
  {
  }

  lemma PaddingIsZero(b: Bytes)
    requires |b| % 2 == 1
    ensures WordsOf(b) == WordsOf(b + [0])
  {
    forall i | 0 <= i < (|b| + 1) / 2
      ensures WordsOf(b)[i] == WordsOf(b + [0])[i]
    {
      WordsInNumbers(b, i);
      WordsInNumbers(b + [0], i);
    }
  }

  // Source address, destination address, zero and protocol 17, UDP length.
  function PseudoHeader(source: Bytes, destination: Bytes, length: uint16): (words: seq<uint16>)
    requires |source| == |destination| == 4
  {
    WordsOf(source) + WordsOf(destination) + [17, length]
  }

  // Everything the UDP checksum covers.
  function Covered(source: Bytes, destination: Bytes, datagram: Bytes): seq<uint16>
    requires |source| == |destination| == 4 && |datagram| <= MAX_UDP_LENGTH
  {
    PseudoHeader(source, destination, |datagram|) + WordsOf(datagram)
  }

  // The receiver's test.
  predicate Verifies(source: Bytes, destination: Bytes, datagram: Bytes)
    requires |source| == |destination| == 4 && |datagram| <= MAX_UDP_LENGTH
  {
    OnesSum(Covered(source, destination, datagram)) == 0xffff
  }

  // The sender's value: the complement of the sum, with zero sent as all ones.
  function ChecksumOf(source: Bytes, destination: Bytes, datagram: Bytes): uint16
    requires |source| == |destination| == 4 && |datagram| <= MAX_UDP_LENGTH
  {
    var c := 0xffff - OnesSum(Covered(source, destination, datagram));
    if c == 0 then 0xffff else c
  }

  // ---- Deferred carries ----

  function Total(words: seq<uint16>): nat {
    if words == [] then 0 else Total(words[..|words| - 1]) + words[|words| - 1]
  }

  // The one nonzero representative of a positive total's residue class.
  function Residue(total: nat): uint16 {
    if total == 0 then 0 else (total - 1) % 0xffff + 1
  }

  lemma ResidueStep(total: nat, word: uint16)
    ensures Residue(total + word) == OnesAdd(Residue(total), word)
  {
  }

  lemma {:induction false} OnesSumIsResidue(words: seq<uint16>)
    ensures OnesSum(words) == Residue(Total(words))
  {
    if words == [] {
    } else {
      OnesSumIsResidue(words[..|words| - 1]);
      ResidueStep(Total(words[..|words| - 1]), words[|words| - 1]);
    }
  }

  // One round of the code's folding loop: (sum & 0xffff) + (sum >> 16).
  function FoldOnce(sum: nat): nat {
    sum % 0x1_0000 + sum / 0x1_0000
  }

  lemma {:induction false} MultiplesVanish(a: nat, k: nat)
    ensures (a + k * 0xffff) % 0xffff == a % 0xffff
  {
    if k == 0 {
    } else {
      MultiplesVanish(a, k - 1);
      assert (a + (k - 1) * 0xffff + 0xffff) % 0xffff == (a + (k - 1) * 0xffff) % 0xffff;
    }
  }

  lemma FoldKeepsResidue(sum: nat)
    ensures Residue(FoldOnce(sum)) == Residue(sum)
    ensures sum <= 0xffff ==> Residue(sum) == sum
  {
    if sum > 0 {
      MultiplesVanish(FoldOnce(sum) - 1, sum / 0x1_0000);
    }
  }

  // A 32-bit sum needs at most two rounds.
  lemma TwoRoundsSuffice(sum: uint32)
    ensures FoldOnce(FoldOnce(sum)) <= 0xffff
    ensures sum > 0xffff ==> FoldOnce(sum) < sum
  {
  }

  lemma {:induction false} TotalConcat(a: seq<uint16>, b: seq<uint16>)
    ensures Total(a + b) == Total(a) + Total(b)
  {
    if b == [] {
      assert a + b == a;
    } else {
      assert (a + b)[..|a + b| - 1] == a + b[..|b| - 1];
      TotalConcat(a, b[..|b| - 1]);
    }
  }

  lemma {:induction false} TotalBounded(words: seq<uint16>)
    ensures Total(words) <= 0xffff * |words|
  {
    if words == [] {
    } else {
      TotalBounded(words[..|words| - 1]);
    }
  }

  lemma AddressTotal(a: Bytes)
    requires |a| == 4
    ensures Total(WordsOf(a)) == Word(a[0], a[1]) + Word(a[2], a[3])
  {
    assert WordsOf(a) == [Word(a[0], a[1])] + [Word(a[2], a[3])];
    TotalConcat([Word(a[0], a[1])], [Word(a[2], a[3])]);
  }

  lemma HeaderTotal(source: Bytes, destination: Bytes, length: uint16)
    requires |source| == |destination| == 4
    ensures Total(PseudoHeader(source, destination, length))
         == Total(WordsOf(source)) + Total(WordsOf(destination)) + 17 + length
  {
    TotalConcat(WordsOf(source) + WordsOf(destination), [17, length]);
    TotalConcat(WordsOf(source), WordsOf(destination));
    assert Total([17, length]) == 17 + length by {
      assert [17, length][..1] == [17];
      assert Total([17]) == Total([17][..0]) + 17;
    }
  }

  lemma CoveredTotal(source: Bytes, destination: Bytes, datagram: Bytes)
    requires |source| == |destination| == 4 && |datagram| <= MAX_UDP_LENGTH
    ensures Total(Covered(source, destination, datagram))
         == Total(WordsOf(source)) + Total(WordsOf(destination)) + 17 + |datagram| + Total(WordsOf(datagram))
  {
    HeaderTotal(source, destination, |datagram|);
    TotalConcat(PseudoHeader(source, destination, |datagram|), WordsOf(datagram));
  }

  // ---- The code ----

  function SumTo(b: Bytes, k: nat): (sum: nat)
    requires 2 * k <= |b| + 1
    ensures sum <= 0xffff * k
  {
    if k == 0 then 0 else SumTo(b, k - 1) + WordAt(b, k - 1)
  }

  lemma {:induction false} SumToIsTotal(b: Bytes, k: nat)
    requires 2 * k <= |b| + 1
    ensures SumTo(b, k) == Total(WordsTo(b, k))
  {
    if k == 0 {
    } else {
      SumToIsTotal(b, k - 1);
      assert WordsTo(b, k) == WordsTo(b, k - 1) + [WordAt(b, k - 1)];
    }
  }

  // The loop over the payload, with its odd last byte.
  method AddWords(payload: Bytes, start: uint32) returns (sum: uint32)
    requires |payload| <= MAX_UDP_LENGTH && start <= 0x10_0000
    ensures sum == start + SumTo(payload, (|payload| + 1) / 2)
  {
    ghost var k := 0;
    sum := start;
    var i := 0;
    while i + 1 < |payload|
      invariant i == 2 * k && i <= |payload|
      invariant sum == start + SumTo(payload, k)
    {
      assert SumTo(payload, k + 1) == SumTo(payload, k) + WordAt(payload, k);
      sum := sum + Word(payload[i], payload[i + 1]);
      i := i + 2;
      k := k + 1;
    }
    if |payload| % 2 != 0 {
      assert SumTo(payload, k + 1) == SumTo(payload, k) + WordAt(payload, k);
      var last: int := payload[|payload| - 1];
      sum := sum + 256 * last;
    }
  }

  // The folding loop. Its measure is `2 - rounds`: it ends within two rounds.
  method FoldCarries(total: uint32) returns (sum: uint32)
    ensures sum <= 0xffff && sum == Residue(total)
  {
    TwoRoundsSuffice(total);
    FoldKeepsResidue(total);
    FoldKeepsResidue(FoldOnce(total));
    FoldKeepsResidue(FoldOnce(FoldOnce(total)));
    sum := total;
    ghost var rounds := 0;
    while sum > 0xffff
      invariant 0 <= rounds <= 2
      invariant sum == if rounds == 0 then total
                       else if rounds == 1 then FoldOnce(total) else FoldOnce(FoldOnce(total))
      decreases 2 - rounds
    {
      sum := sum % 0x1_0000 + sum / 0x1_0000;
      rounds := rounds + 1;
    }
  }

  // What the code sums up, two address words at a time, is the total of the words covered.
  lemma SumIsTotal(src: Bytes, dst: Bytes, payload: Bytes)
    requires |src| == |dst| == 4 && |payload| <= MAX_UDP_LENGTH
    ensures Word(src[0], src[1]) + Word(dst[0], dst[1]) + Word(src[2], src[3]) + Word(dst[2], dst[3])
            + 17 + |payload| + SumTo(payload, (|payload| + 1) / 2)
         == Total(Covered(src, dst, payload))
    ensures OnesSum(Covered(src, dst, payload)) == Residue(Total(Covered(src, dst, payload)))
  {
    AddressTotal(src);
    AddressTotal(dst);
    SumToIsTotal(payload, (|payload| + 1) / 2);
    CoveredTotal(src, dst, payload);
    OnesSumIsResidue(Covered(src, dst, payload));
    hide Word;
    hide Covered;
    hide Residue;
    hide OnesSum;
  }

  // `sum` is a uint32 throughout: for every length the caller lets through, no addition wraps.
  method UdpChecksum(source: Bytes, destination: Bytes, payload: Bytes) returns (checksum: uint16)
    requires To4(source).Some? && To4(destination).Some? && |payload| <= MAX_UDP_LENGTH
    ensures checksum == ChecksumOf(To4(source).value, To4(destination).value, payload)
  {
    var src, dst := To4(source).value, To4(destination).value;
    hide To4;
    hide Word;
    hide Residue;
    hide OnesSum;
    hide Covered;
    var sum: uint32 := 0;
    var i := 0;
    while i < 4
      invariant i == 0 || i == 2 || i == 4
      invariant sum == (if i >= 2 then Word(src[0], src[1]) + Word(dst[0], dst[1]) else 0)
                     + (if i >= 4 then Word(src[2], src[3]) + Word(dst[2], dst[3]) else 0)
    {
      sum := sum + Word(src[i], src[i + 1]);
      sum := sum + Word(dst[i], dst[i + 1]);
      i := i + 2;
    }
    sum := sum + 17;
    sum := sum + |payload|;
    sum := AddWords(payload, sum);
    SumIsTotal(src, dst, payload);
    sum := FoldCarries(sum);
    checksum := 0xffff - sum;
    if checksum == 0 {
      return 0xffff;
    }
  }

  // ---- What the value is for ----

  lemma {:induction false} TotalUpdate(words: seq<uint16>, i: nat, w: uint16)
    requires i < |words|
    ensures Total(words[i := w]) == Total(words) - words[i] + w
  {
    var n := |words| - 1;
    if i == n {
      assert words[i := w][..n] == words[..n];
    } else {
      assert words[i := w][..n] == words[..n][i := w];
      TotalUpdate(words[..n], i, w);
    }
  }

  lemma FullResidue(total: nat)
    requires total > 0
    ensures Residue(total) == 0xffff <==> total % 0xffff == 0
  {
  }

  lemma VerifiesByTotal(source: Bytes, destination: Bytes, datagram: Bytes)
    requires |source| == |destination| == 4 && |datagram| <= MAX_UDP_LENGTH
    ensures Total(Covered(source, destination, datagram)) >= 17
    ensures Verifies(source, destination, datagram)
       <==> Total(Covered(source, destination, datagram)) % 0xffff == 0
  {
    var words := Covered(source, destination, datagram);
    OnesSumIsResidue(words);
    CoveredTotal(source, destination, datagram);
    FullResidue(Total(words));
  }

  // The arithmetic of complementing: which 16-bit values complete a total to a multiple of 65535.
  lemma Completes(total: nat, c: uint16)
    requires total > 0
    ensures (total + c) % 0xffff == 0
       <==> c == 0xffff - Residue(total) || (c == 0xffff && Residue(total) == 0xffff)
  {
    var r := Residue(total);
    assert (total + c) % 0xffff == (r + c) % 0xffff;
  }

  // The complement of the sum, with zero sent as all ones.
  lemma ComplementIsUnique(total: nat, c: uint16)
    requires total > 0
    ensures var v := if Residue(total) == 0xffff then 0xffff else 0xffff - Residue(total);
            && v != 0
            && ((total + c) % 0xffff == 0 <==> c == v || (c == 0 && v == 0xffff))
  {
    Completes(total, c);
    assert Residue(total) > 0;
    hide Residue;
  }

  function HighByte(w: uint16): byte { w / 256 }
  function LowByte(w: uint16): byte { w % 256 }

  // The checksum field is the fourth word of a UDP header.
  function WithChecksum(datagram: Bytes, c: uint16): Bytes
    requires |datagram| >= 8
  {
    datagram[6 := HighByte(c)][7 := LowByte(c)]
  }

  lemma ChecksumWord(source: Bytes, destination: Bytes, datagram: Bytes, c: uint16)
    requires |source| == |destination| == 4 && 8 <= |datagram| <= MAX_UDP_LENGTH
    ensures Covered(source, destination, WithChecksum(datagram, c))
         == Covered(source, destination, datagram)[9 := c]
  {
    var changed := WithChecksum(datagram, c);
    assert forall i | 0 <= i < (|datagram| + 1) / 2 && i != 3 :: WordAt(changed, i) == WordAt(datagram, i);
    assert WordsOf(changed) == WordsOf(datagram)[3 := c];
  }

  lemma FilledTotal(source: Bytes, destination: Bytes, datagram: Bytes, c: uint16)
    requires |source| == |destination| == 4 && 8 <= |datagram| <= MAX_UDP_LENGTH
    requires datagram[6] == datagram[7] == 0
    ensures Total(Covered(source, destination, WithChecksum(datagram, c)))
         == Total(Covered(source, destination, datagram)) + c
  {
    var words := Covered(source, destination, datagram);
    assert words[9] == WordAt(datagram, 3) == 0;
    ChecksumWord(source, destination, datagram, c);
    hide Covered;
    hide WithChecksum;
    TotalUpdate(words, 9, c);
  }

  // Over a datagram whose checksum field is zero, the computed value makes the receiver's sum come
  // out as all ones, is never zero, and is the only nonzero value that does so; zero would do too
  // exactly when the value is all ones, which is why it can be reserved to mean "no checksum".
  lemma ChecksumIsUnique(source: Bytes, destination: Bytes, datagram: Bytes, c: uint16)
    requires |source| == |destination| == 4 && 8 <= |datagram| <= MAX_UDP_LENGTH
    requires datagram[6] == datagram[7] == 0
    ensures ChecksumOf(source, destination, datagram) != 0
    ensures Verifies(source, destination, WithChecksum(datagram, c))
       <==> c == ChecksumOf(source, destination, datagram)
            || (c == 0 && ChecksumOf(source, destination, datagram) == 0xffff)
  {
    var words := Covered(source, destination, datagram);
    FilledTotal(source, destination, datagram, c);
    VerifiesByTotal(source, destination, datagram);
    VerifiesByTotal(source, destination, WithChecksum(datagram, c));
    OnesSumIsResidue(words);
    ComplementIsUnique(Total(words), c);
    hide Covered;
    hide WithChecksum;
    hide Verifies;
    hide OnesSum;
    hide Residue;
  }

  lemma Exchange(total: nat, was: uint16, word: uint16)
    requires total % 0xffff == 0
    ensures (total - was + word) % 0xffff == 0 <==> word % 0xffff == was % 0xffff
  {
    var q := total / 0xffff;
    assert (total - was + word) % 0xffff == (word - was) % 0xffff by {
      assert total - was + word == 0xffff * q + (word - was);
    }
  }

  // Error detection: if exactly one covered word changes (in the addresses, the header or the
  // data), the datagram goes on verifying exactly when the new word is congruent to the old one
  // modulo 65535: the same word, or 0x0000 and 0xffff exchanged.
  lemma OneWordChange(source: Bytes, destination: Bytes, datagram: Bytes,
                      source': Bytes, destination': Bytes, datagram': Bytes, i: nat, w: uint16)
    requires |source| == |destination| == |source'| == |destination'| == 4
    requires |datagram| <= MAX_UDP_LENGTH && |datagram'| <= MAX_UDP_LENGTH
    requires i < |Covered(source, destination, datagram)|
    requires Covered(source', destination', datagram') == Covered(source, destination, datagram)[i := w]
    requires Verifies(source, destination, datagram)
    ensures Verifies(source', destination', datagram')
       <==> w % 0xffff == Covered(source, destination, datagram)[i] % 0xffff
  {
    var words := Covered(source, destination, datagram);
    TotalUpdate(words, i, w);
    VerifiesByTotal(source, destination, datagram);
    VerifiesByTotal(source', destination', datagram');
    Exchange(Total(words), words[i], w);
  }
}
