/** The reliable packets a peer sends on one channel, the commands they are cut into and the true,
    unbounded index every command has behind its 16-bit sequence number. */
module PacketStream {
  import opened Octets
  import opened SequenceNumbers
  import opened ReliableReceiver

  /** A packet and the largest piece of it that fits a datagram when it is sent. */
  datatype Packet = Packet(data: seq<Byte>, fragmentLength: nat)

  predicate Sendable(p: Packet) {
    0 < p.fragmentLength
  }

  predicate AllSendable(ps: seq<Packet>) {
    forall i :: 0 <= i < |ps| ==> Sendable(ps[i])
  }

  predicate IsFragmented(p: Packet) {
    p.fragmentLength < |p.data|
  }

  /** How many sequence numbers a packet takes: one, or one per fragment. */
  function Numbers(p: Packet): (n: nat)
    requires Sendable(p)
    ensures 1 <= n
    ensures IsFragmented(p) ==> (n - 1) * p.fragmentLength < |p.data| <= n * p.fragmentLength && 2 <= n
  {
    if IsFragmented(p) then
      CeilingCovers(|p.data|, p.fragmentLength);
      (|p.data| + p.fragmentLength - 1) / p.fragmentLength
    else
      1
  }

  lemma CeilingCovers(length: nat, piece: nat)
    requires 0 < piece < length
    ensures var n := (length + piece - 1) / piece; 2 <= n && (n - 1) * piece < length <= n * piece
  {
    var n := (length + piece - 1) / piece;
    var rest := (length + piece - 1) % piece;
    assert length + piece - 1 == n * piece + rest;
    assert (n - 1) * piece == n * piece - piece;
    AtLeastTwo(length + piece - 1, piece);
  }

  lemma AtLeastTwo(x: nat, m: nat)
    requires 0 < m && 2 * m <= x
    ensures 2 <= x / m
  {
    var d := x / m;
    assert x == d * m + x % m && (d + 1) * m == d * m + m;
    if d + 1 <= 2 { Scale(d + 1, 2, m); }
  }

  /** The true index of the first command of packet i; numbering starts at 1. */
  function Start(ps: seq<Packet>, i: nat): (start: nat)
    requires AllSendable(ps) && i <= |ps|
    ensures 1 <= start
  {
    if i == 0 then 1 else Start(ps, i - 1) + Numbers(ps[i - 1])
  }

  lemma {:induction false} StartMonotone(ps: seq<Packet>, i: nat, j: nat)
    requires AllSendable(ps) && i < j <= |ps|
    ensures Start(ps, i) + Numbers(ps[i]) <= Start(ps, j)
  {
    if i + 1 < j {
      StartMonotone(ps, i, j - 1);
    }
  }

  function Minimum(a: nat, b: nat): nat {
    if a < b then a else b
  }

  function PieceEnd(p: Packet, k: nat): nat {
    Minimum((k + 1) * p.fragmentLength, |p.data|)
  }

  lemma PieceBounds(p: Packet, k: nat)
    requires Sendable(p) && IsFragmented(p) && k < Numbers(p)
    ensures k * p.fragmentLength < PieceEnd(p, k) <= |p.data|
  {
    var f, n := p.fragmentLength, Numbers(p);
    assert k * f <= (n - 1) * f by { Scale(k, n - 1, f); }
    assert (k + 1) * f == k * f + f;
  }

  lemma Scale(a: nat, b: nat, f: nat)
    requires a <= b
    ensures a * f <= b * f
  {
  }

  /** The bytes fragment k carries. */
  function Piece(p: Packet, k: nat): seq<Byte>
    requires Sendable(p) && IsFragmented(p) && k < Numbers(p)
  {
    PieceBounds(p, k);
    p.data[k * p.fragmentLength..PieceEnd(p, k)]
  }

  /** Command k of packet i, as the network carries it. */
  function CommandOf(ps: seq<Packet>, i: nat, k: nat): Command
    requires AllSendable(ps) && i < |ps| && k < Numbers(ps[i])
  {
    var p, start := ps[i], Start(ps, i);
    if IsFragmented(p) then
      Fragment((start + k) % SEQUENCE_SPACE, start % SEQUENCE_SPACE, k, Numbers(p), k * p.fragmentLength, |p.data|,
        Piece(p, k))
    else
      Reliable(start % SEQUENCE_SPACE, p.data)
  }

  /** The fragments of a packet that have arrived are in place in its buffer. */
  ghost predicate PiecesIn(p: Packet, fragments: seq<bool>, data: seq<Byte>)
    requires Sendable(p) && IsFragmented(p)
  {
    && |fragments| == Numbers(p) && |data| == |p.data|
    && forall x :: 0 <= x < |data| && Arrived(p, fragments, x) ==> data[x] == p.data[x]
  }

  /** The fragment that carries byte x has arrived. */
  ghost predicate Arrived(p: Packet, fragments: seq<bool>, x: nat)
    requires Sendable(p)
  {
    x / p.fragmentLength < |fragments| && fragments[x / p.fragmentLength]
  }

  lemma ByteInPiece(p: Packet, x: nat)
    requires Sendable(p) && IsFragmented(p) && x < |p.data|
    ensures x / p.fragmentLength < Numbers(p)
  {
    var f, n, k := p.fragmentLength, Numbers(p), x / p.fragmentLength;
    assert x == k * f + x % f;
    if n <= k { Scale(n, k, f); }
  }

  lemma PieceOfByte(p: Packet, x: nat, k: nat)
    requires Sendable(p) && x < |p.data|
    ensures x / p.fragmentLength == k <==> k * p.fragmentLength <= x < PieceEnd(p, k)
  {
    var f, q := p.fragmentLength, x / p.fragmentLength;
    assert x == q * f + x % f;
    assert (q + 1) * f == q * f + f;
    if k < q { Scale(k + 1, q, f); } else if q < k { Scale(q + 1, k, f); }
  }

  /** Writing piece k leaves every other fragment's bytes alone. */
  lemma PieceWritten(p: Packet, fragments: seq<bool>, data: seq<Byte>, k: nat)
    requires Sendable(p) && IsFragmented(p) && k < Numbers(p) && PiecesIn(p, fragments, data)
    ensures k * p.fragmentLength < PieceEnd(p, k) <= |data|
    ensures PiecesIn(p, fragments[k := true], data[..k * p.fragmentLength] + Piece(p, k) + data[PieceEnd(p, k)..])
  {
    PieceBounds(p, k);
    var data' := data[..k * p.fragmentLength] + Piece(p, k) + data[PieceEnd(p, k)..];
    forall x | 0 <= x < |data'| && Arrived(p, fragments[k := true], x) ensures data'[x] == p.data[x] {
      PieceOfByte(p, x, k);
      if x / p.fragmentLength != k {
        assert Arrived(p, fragments, x);
      }
    }
  }

  /** Reassembly: with every fragment in, the buffer is the packet that was sent. */
  lemma AllPiecesIn(p: Packet, fragments: seq<bool>, data: seq<Byte>)
    requires Sendable(p) && IsFragmented(p) && PiecesIn(p, fragments, data)
    requires forall k :: 0 <= k < |fragments| ==> fragments[k]
    ensures data == p.data
  {
    forall x | 0 <= x < |data| ensures data[x] == p.data[x] {
      ByteInPiece(p, x);
      assert Arrived(p, fragments, x);
    }
  }
}
