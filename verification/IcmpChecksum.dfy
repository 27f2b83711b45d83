/**
 The ICMP checksum: recomputed over a whole message, and updated incrementally when one word changes
 (section 3 of RFC 1624, equation 3). Words are 16-bit and little-endian, as the host reads them.
 */
module IcmpChecksum {
  import opened Words

  const ONES: int := 0xffff

  function Word(low: uint8, high: uint8): uint16 {
    (low as int) + 0x100 * (high as int)
  }

  function WordAt(m: seq<uint8>, i: nat): uint16
    requires 2 * i + 1 < |m|
  {
    Word(m[2 * i], m[2 * i + 1])
  }

  function WordsOf(m: seq<uint8>): (ws: seq<uint16>)
    requires |m| % 2 == 0
    ensures |ws| == |m| / 2
  {
    seq(|m| / 2, i requires 0 <= i < |m| / 2 => WordAt(m, i))
  }

  /** The words of a message of any length: one of odd length is padded with a zero byte (section 1 of
      RFC 1071). */
  function MessageWords(m: seq<uint8>): (ws: seq<uint16>)
    ensures |ws| == (|m| + 1) / 2
    ensures |m| % 2 == 0 ==> ws == WordsOf(m)
  {
    WordsOf(if |m| % 2 == 0 then m else m + [0])
  }

  function Sum(ws: seq<uint16>): nat {
    if ws == [] then 0 else Sum(ws[..|ws| - 1]) + ws[|ws| - 1]
  }

  /** One end-around carry. */
  function Fold(x: nat): nat {
    x % U16 + x / U16
  }

  /** Carries folded in until none is left. */
  function FoldAll(x: nat): (r: nat)
    ensures r <= ONES
    ensures r == 0 <==> x == 0
    ensures r % ONES == x % ONES
  {
    if x < U16 then x
    else
      FoldStep(x);
      FoldAll(Fold(x))
  }

  /** One end-around carry makes a sum smaller, keeps it positive and keeps its residue. */
  lemma FoldStep(x: nat)
    requires x >= U16
    ensures 0 < Fold(x) < x && Fold(x) % ONES == x % ONES
  {
    var q := x / U16;
    assert Fold(x) == x - q * ONES;
    DropOnes(x, q);
  }

  lemma {:induction false} DropOnes(x: int, q: nat)
    ensures (x - q * ONES) % ONES == x % ONES
    decreases q
  {
    if q > 0 {
      DropOnes(x - ONES, q - 1);
      assert x - q * ONES == x - ONES - (q - 1) * ONES;
    }
  }

  /** `dp_calculate_icmp_checksum`; word 1 of an ICMP message is its checksum. */
  function FullChecksum(ws: seq<uint16>): uint16
    requires |ws| >= 2
  {
    ONES - FoldAll(Sum(ws[1 := 0]))
  }

  /** The incremental update of checksum `c` when a word goes from `a` to `b`, with two folds. */
  function Incremental(c: uint16, a: uint16, b: uint16): uint16 {
    TwoFoldsSuffice((ONES - c) + (ONES - a) + b);
    ONES - Fold(Fold((ONES - c) + (ONES - a) + b))
  }

  /** Two folds absorb every carry of a sum of three words. */
  lemma TwoFoldsSuffice(x: nat)
    requires x <= 3 * ONES
    ensures Fold(Fold(x)) == FoldAll(x) <= ONES
  {
    assert Fold(x) <= ONES + 2;
  }

  // ----- Sums -----

  lemma {:induction false} SumUpdate(ws: seq<uint16>, i: nat, v: uint16)
    requires i < |ws|
    ensures Sum(ws[i := v]) == Sum(ws) - ws[i] + v
  {
    var n := |ws| - 1;
    if i == n {
      assert ws[i := v][..n] == ws[..n];
    } else {
      assert ws[i := v][..n] == ws[..n][i := v];
      SumUpdate(ws[..n], i, v);
    }
  }

  lemma {:induction false} SumBounds(ws: seq<uint16>)
    ensures Sum(ws) <= |ws| * ONES
    ensures Sum(ws) == 0 <==> forall i :: 0 <= i < |ws| ==> ws[i] == 0
  {
    if ws != [] {
      SumBounds(ws[..|ws| - 1]);
      assert forall i :: 0 <= i < |ws| - 1 ==> ws[..|ws| - 1][i] == ws[i];
    }
  }

  // ----- The incremental update against the full computation -----

  predicate Correct(ws: seq<uint16>)
    requires |ws| >= 2
  {
    ws[1] == FullChecksum(ws)
  }

  /** Some word besides the checksum is not zero. */
  ghost predicate Substantial(ws: seq<uint16>) {
    exists i :: 0 <= i < |ws| && i != 1 && ws[i] != 0
  }

  lemma SubstantialIffSum(ws: seq<uint16>)
    requires |ws| >= 2
    ensures Substantial(ws) <==> Sum(ws[1 := 0]) != 0
  {
    SumBounds(ws[1 := 0]);
    if Substantial(ws) {
      var i :| 0 <= i < |ws| && i != 1 && ws[i] != 0;
      assert ws[1 := 0][i] != 0;
    } else {
      var zeroed := ws[1 := 0];
      assert forall i :: 0 <= i < |ws| ==> zeroed[i] == 0;
    }
  }

  lemma Congruent(f: int, s: int, d: int)
    requires f % ONES == s % ONES
    ensures (f + ONES - d) % ONES == (s - d) % ONES
  {
  }

  /** Two checksums of non-zero sums that are congruent are equal. */
  lemma FoldsAgree(x: nat, y: nat)
    requires x > 0 && x % ONES == y % ONES
    ensures FoldAll(x) == FoldAll(y) <==> y > 0
  {
  }

  /** Changing word `i` of a correctly summed message by `b - a` and updating the checksum incrementally
      gives the checksum a full computation would give, if and only if the rest of the new message
      is not all zero. */
  lemma IncrementalIffSubstantial(ws: seq<uint16>, i: nat, v: uint16, a: uint16, b: uint16)
    requires |ws| >= 2 && i < |ws| && i != 1 && Correct(ws)
    requires v - ws[i] == b - a && a <= ws[i]
    ensures Correct(ws[i := v][1 := Incremental(ws[1], a, b)]) <==> Substantial(ws[i := v])
  {
    var s := Sum(ws[1 := 0]);
    var x := FoldAll(s) + (ONES - a) + b;
    NewSum(ws, i, v);
    var s' := Sum(ws[i := v][1 := 0]);
    SubstantialIffSum(ws[i := v]);
    SumIsPositive(ws, i, a, b);
    Congruent(FoldAll(s), s, a - b);
    FoldsAgree(x, s');
    TwoFoldsSuffice(x);
    var c := Incremental(ws[1], a, b);
    assert ws[i := v][1 := c][1 := 0] == ws[i := v][1 := 0];
  }

  lemma NewSum(ws: seq<uint16>, i: nat, v: uint16)
    requires |ws| >= 2 && i < |ws| && i != 1
    ensures Sum(ws[i := v][1 := 0]) == Sum(ws[1 := 0]) - ws[i] + v
  {
    assert ws[i := v][1 := 0] == ws[1 := 0][i := v];
    SumUpdate(ws[1 := 0], i, v);
  }

  /** The sum the update folds is never zero. */
  lemma SumIsPositive(ws: seq<uint16>, i: nat, a: uint16, b: uint16)
    requires |ws| >= 2 && i < |ws| && i != 1 && a <= ws[i]
    ensures FoldAll(Sum(ws[1 := 0])) + (ONES - a) + b > 0
  {
    if Sum(ws[1 := 0]) == 0 {
      SumBounds(ws[1 := 0]);
      assert ws[1 := 0][i] == 0;
    }
  }

  /** An echo request whose other words are all zero: turned into a reply, its checksum becomes 0 where a
      full computation gives 0xffff. */
  lemma ZeroEchoIsMissummed()
    ensures var ws := [8, 0xfff7, 0, 0];
            && Correct(ws) && Incremental(ws[1], 8, 0) == 0
            && FullChecksum(ws[0 := 0][1 := 0]) == 0xffff
  {
    var ws: seq<uint16> := [8, 0xfff7, 0, 0];
    SumUpdate(ws[1 := 0], 0, 0);
    SumBounds(ws[1 := 0][0 := 0]);
    assert ws[1 := 0][0 := 0] == ws[0 := 0][1 := 0][1 := 0];
    TwoFoldsSuffice(ONES);
  }

  /** The checksum computed over a message of odd length takes in the byte after it; it is the one that is due
      if and only if that byte happens to be zero. */
  lemma OddLengthIffZeroNext(m: seq<uint8>, next: uint8)
    requires |m| >= 5 && |m| % 2 == 1
    ensures FullChecksum(WordsOf(m + [next])) == FullChecksum(MessageWords(m)) <==> next == 0
  {
    var n := |m| / 2;
    var read, due := WordsOf(m + [next])[1 := 0], WordsOf(m + [0])[1 := 0];
    assert due == read[n := WordAt(m + [0], n)];
    SumUpdate(read, n, due[n]);
    assert Sum(read) == Sum(due) + 0x100 * next;
    ShiftedByte(Sum(due), next);
  }

  lemma ShiftedByte(x: nat, b: uint8)
    ensures FoldAll(x + 0x100 * b) == FoldAll(x) <==> b == 0
  {
    if FoldAll(x + 0x100 * b) == FoldAll(x) {
      Congruent(x + 0x100 * b, x, x);
    }
  }

  // ----- The code, on the bytes of the message -----

  /** A 16-bit number stored in network byte order, read as a host word. */
  function NetworkOrder(x: uint16): uint16 {
    x / 0x100 + 0x100 * (x % 0x100)
  }

  /** Storing host word `w` at word index `i`. */
  method StoreWord(msg: array<uint8>, i: nat, w: uint16)
    requires 2 * i + 1 < msg.Length
    modifies msg
    ensures MessageWords(msg[..]) == old(MessageWords(msg[..]))[i := w]
  {
    var low: uint8, high: uint8 := w % 0x100, w / 0x100;
    StoredWord(msg[..], i, low, high);
    ghost var stored := msg[..][2 * i := low][2 * i + 1 := high];
    msg[2 * i], msg[2 * i + 1] := low, high;
    assert msg[..] == stored;
  }

  lemma StoredWord(m: seq<uint8>, i: nat, low: uint8, high: uint8)
    requires 2 * i + 1 < |m|
    ensures MessageWords(m[2 * i := low][2 * i + 1 := high]) == MessageWords(m)[i := Word(low, high)]
  {
  }

  /** The summing loop; 32 bits are enough for any IPv4 payload. Past the end of a message of odd length it
      reads one byte more, which `msg` then includes. */
  method SumWords(msg: array<uint8>, len: nat) returns (sum: uint32)
    requires len <= ONES && msg.Length == len + len % 2
    ensures sum == Sum(WordsOf(msg[..]))
  {
    ghost var ws := WordsOf(msg[..]);
    sum := 0;
    var i := 0;
    ghost var k := 0;
    while i < len
      invariant i == 2 * k && 0 <= k <= |ws|
      invariant sum == Sum(ws[..k])
    {
      var word := Word(msg[i], msg[i + 1]);
      assert word == ws[k];
      SumNext(ws, k);
      sum := Add32(sum, word);
      i := i + 2;
      k := k + 1;
    }
    assert ws[..k] == ws;
  }

  /** A 32-bit addition. */
  function Add32(x: uint32, y: uint16): (r: uint32)
    ensures x + y < U32 ==> r == x + y
  {
    (x + y) % U32
  }

  lemma SumNext(ws: seq<uint16>, k: nat)
    requires k < |ws| <= U16 / 2
    ensures Sum(ws[..k + 1]) == Sum(ws[..k]) + ws[k] < U32
  {
    assert ws[..k + 1][..k] == ws[..k];
    SumBounds(ws[..k + 1]);
  }

  /** The carry loop. */
  method FoldCarries(sum: uint32) returns (r: uint16)
    ensures r == FoldAll(sum)
  {
    var s := sum;
    while s / U16 != 0
      invariant 0 <= s && FoldAll(s) == FoldAll(sum)
      decreases s
    {
      s := s % U16 + s / U16;
    }
    return s;
  }

  /** `dp_calculate_icmp_checksum` */
  method CalculateChecksum(msg: array<uint8>, len: nat)
    requires 4 <= len <= ONES && msg.Length == len + len % 2
    modifies msg
    ensures WordsOf(msg[..]) == old(WordsOf(msg[..]))[1 := FullChecksum(old(WordsOf(msg[..])))]
    ensures Correct(WordsOf(msg[..]))
  {
    StoreWord(msg, 1, 0);
    ghost var ws := WordsOf(msg[..]);
    var sum := SumWords(msg, len);
    var folded := FoldCarries(sum);
    StoreWord(msg, 1, ONES - folded);
    assert WordsOf(msg[..])[1 := 0] == ws;
  }

  /** The straight-line update shared by the two rewrites below. */
  method UpdateChecksum(msg: array<uint8>, a: uint16, b: uint16)
    requires msg.Length >= 4
    modifies msg
    ensures var ws := old(MessageWords(msg[..])); MessageWords(msg[..]) == ws[1 := Incremental(ws[1], a, b)]
  {
    var cksum := Word(msg[2], msg[3]);
    ReadWord(msg[..], 1);
    var updated := Updated(cksum, a, b);
    StoreWord(msg, 1, updated);
  }

  /** Its arithmetic. */
  method Updated(cksum: uint16, a: uint16, b: uint16) returns (c: uint16)
    ensures c == Incremental(cksum, a, b)
  {
    var sum := (ONES - cksum) + (ONES - a) + b;
    TwoFoldsSuffice(sum);
    sum := Fold(sum);
    sum := Fold(sum);
    c := ONES - sum;
  }

  lemma ReadWord(m: seq<uint8>, i: nat)
    requires 2 * i + 1 < |m|
    ensures MessageWords(m)[i] == Word(m[2 * i], m[2 * i + 1])
  {
  }

  /** `dp_change_icmp_identifier` */
  method ChangeIdentifier(msg: array<uint8>, ident: uint16)
    requires msg.Length >= 8
    modifies msg
    ensures var ws, to := old(MessageWords(msg[..])), NetworkOrder(ident);
            && MessageWords(msg[..]) == ws[2 := to][1 := Incremental(ws[1], ws[2], to)]
            && (Correct(ws) ==> (Correct(MessageWords(msg[..])) <==> Substantial(ws[2 := to])))
  {
    ghost var ws := MessageWords(msg[..]);
    var oldIdent := Word(msg[4], msg[5]);
    assert oldIdent == ws[2];
    StoreWord(msg, 2, NetworkOrder(ident));
    UpdateChecksum(msg, oldIdent, NetworkOrder(ident));
    if Correct(ws) { IncrementalIffSubstantial(ws, 2, NetworkOrder(ident), oldIdent, NetworkOrder(ident)); }
  }

  /** The header rewrite of `lb_nnat_icmp_reply`: an echo request, whatever its code, becomes an echo reply. */
  method AnswerEcho(msg: array<uint8>) returns (ok: bool)
    requires msg.Length >= 8
    modifies msg
    ensures ok <==> old(msg[0]) == 8
    ensures !ok ==> msg[..] == old(msg[..])
    ensures ok ==>
              var ws := old(MessageWords(msg[..]));
              && ws[0] >= 8 && MessageWords(msg[..]) == ws[0 := ws[0] - 8][1 := Incremental(ws[1], 8, 0)]
              && (Correct(ws) ==> (Correct(MessageWords(msg[..])) <==> Substantial(ws[0 := ws[0] - 8])))
  {
    if msg[0] != 8 { return false; }
    ghost var ws := MessageWords(msg[..]);
    assert ws[0] == Word(8, msg[1]);
    msg[0] := 0;
    assert MessageWords(msg[..]) == ws[0 := ws[0] - 8];
    UpdateChecksum(msg, 8, 0);
    if Correct(ws) { IncrementalIffSubstantial(ws, 0, ws[0] - 8, 8, 0); }
    return true;
  }
}
