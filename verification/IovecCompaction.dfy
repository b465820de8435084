/**
  Capture of the first three buffers of a vector into fixed slots of the request, and their
  compaction in place. The compacted request is a prefix of the data, whatever is empty, missing
  or cut short.
 */
module IovecCompaction {
  import opened Bytes

  const CHUNK_BYTES: nat := 96
  const REQUEST_BYTES: nat := 1024

  /** A vector entry: a null pointer may come with a length of its own. */
  datatype Slot = Null(len: nat) | Buffer(bytes: ByteSeq) {
    function Length(): nat { match this case Null(n) => n case Buffer(b) => |b| }
  }

  datatype Lens = Lens(first: nat, second: nat, third: nat) {
    function Total(): nat { first + second + third }
  }

  /** The readable data from the front of the vector. */
  function Data(v: seq<Slot>): ByteSeq
  {
    if v == [] then [] else Data(v[..|v| - 1]) + (if v[|v| - 1].Null? then [] else v[|v| - 1].bytes)
  }

  function Capped(n: nat): nat { if n > CHUNK_BYTES then CHUNK_BYTES else n }

  /** The slots hold the starts of three pieces. */
  ghost predicate Holds(request: ByteSeq, lens: Lens, a: ByteSeq, b: ByteSeq, c: ByteSeq)
  {
    && |request| == REQUEST_BYTES && lens == Lens(|a|, |b|, |c|) && |a| <= CHUNK_BYTES && |b| <= CHUNK_BYTES && |c| <= CHUNK_BYTES
    && request[..|a|] == a && request[CHUNK_BYTES..CHUNK_BYTES + |b|] == b && request[2 * CHUNK_BYTES..2 * CHUNK_BYTES + |c|] == c
  }

  /** Whole blocks of sixteen bytes, then single bytes. */
  method CopySlot(buffer: ByteSeq, request: array<Byte>, at: nat) returns (copied: nat)
    requires request.Length == REQUEST_BYTES && at + CHUNK_BYTES <= REQUEST_BYTES
    modifies request
    ensures copied == Capped(|buffer|) && request[at..at + copied] == buffer[..copied]
    ensures forall j | 0 <= j < at || at + CHUNK_BYTES <= j < REQUEST_BYTES :: request[j] == old(request[j])
  {
    copied := Capped(|buffer|);
    var index := 0;
    while index + 16 <= copied
      invariant 0 <= index <= copied && index % 16 == 0
      invariant forall j | 0 <= j < index :: request[at + j] == buffer[j]
      invariant forall j | 0 <= j < at || at + CHUNK_BYTES <= j < REQUEST_BYTES :: request[j] == old(request[j])
    {
      for k := 0 to 16
        invariant forall j | 0 <= j < index + k :: request[at + j] == buffer[j]
        invariant forall j | 0 <= j < at || at + CHUNK_BYTES <= j < REQUEST_BYTES :: request[j] == old(request[j])
      {
        request[at + index + k] := buffer[index + k];
      }
      index := index + 16;
    }
    while index < copied
      invariant 0 <= index <= copied
      invariant forall j | 0 <= j < index :: request[at + j] == buffer[j]
      invariant forall j | 0 <= j < at || at + CHUNK_BYTES <= j < REQUEST_BYTES :: request[j] == old(request[j])
    {
      request[at + index] := buffer[index];
      index := index + 1;
    }
  }

  /** Moves `len` bytes down; the source may overlap the destination. */
  method MoveDown(request: array<Byte>, to: nat, from: nat, len: nat)
    requires request.Length == REQUEST_BYTES && to <= from && from + len <= REQUEST_BYTES && len <= CHUNK_BYTES
    modifies request
    ensures request[..][to..to + len] == old(request[..])[from..from + len]
    ensures forall j | 0 <= j < to || to + len <= j < REQUEST_BYTES :: request[..][j] == old(request[..])[j]
  {
    ghost var was := request[..];
    var index := 0;
    while index < len
      invariant 0 <= index <= len && request[to..to + index] == was[from..from + index]
      invariant forall j | 0 <= j < to || to + index <= j < REQUEST_BYTES :: request[j] == was[j]
    {
      request[to + index] := request[from + index];
      assert request[to..to + index + 1] == request[to..to + index] + [was[from + index]];
      index := index + 1;
    }
  }

  /** The values of the request before, between and after the two moves. */
  lemma {:induction false} PiecesJoined(was: ByteSeq, middle: ByteSeq, now: ByteSeq, a: nat, b: nat, c: nat)
    requires |was| == |middle| == |now| == REQUEST_BYTES && a <= CHUNK_BYTES && b <= CHUNK_BYTES && c <= CHUNK_BYTES
    requires middle[a..a + b] == was[CHUNK_BYTES..CHUNK_BYTES + b]
    requires forall j | 0 <= j < a || a + b <= j < REQUEST_BYTES :: middle[j] == was[j]
    requires now[a + b..a + b + c] == middle[2 * CHUNK_BYTES..2 * CHUNK_BYTES + c]
    requires forall j | 0 <= j < a + b || a + b + c <= j < REQUEST_BYTES :: now[j] == middle[j]
    ensures now[..a + b + c] == was[..a] + was[CHUNK_BYTES..CHUNK_BYTES + b] + was[2 * CHUNK_BYTES..2 * CHUNK_BYTES + c]
  {
    assert middle[2 * CHUNK_BYTES..2 * CHUNK_BYTES + c] == was[2 * CHUNK_BYTES..2 * CHUNK_BYTES + c];
    assert now[..a] == was[..a] && now[a..a + b] == middle[a..a + b];
    assert now[..a + b + c] == now[..a] + now[a..a + b] + now[a + b..a + b + c];
  }

  /** The three pieces, joined in place; refused if the recorded lengths do not make up the request. */
  method Compact(request: array<Byte>, lens: Lens, requestLen: nat) returns (ok: bool)
    requires request.Length == REQUEST_BYTES
    modifies request
    ensures ok <==> lens.first <= CHUNK_BYTES && lens.second <= CHUNK_BYTES && lens.third <= CHUNK_BYTES && lens.Total() == requestLen
    ensures ok ==> var was := old(request[..]);
                   request[..][..lens.Total()] ==
                   was[..lens.first] + was[CHUNK_BYTES..CHUNK_BYTES + lens.second] +
                   was[2 * CHUNK_BYTES..2 * CHUNK_BYTES + lens.third]
    ensures !ok ==> request[..] == old(request[..])
  {
    if lens.first > CHUNK_BYTES || lens.second > CHUNK_BYTES || lens.third > CHUNK_BYTES || lens.Total() != requestLen {
      return false;
    }
    var a, b, c := lens.first, lens.second, lens.third;
    ghost var was := request[..];
    MoveDown(request, a, CHUNK_BYTES, b);
    ghost var middle := request[..];
    MoveDown(request, a + b, 2 * CHUNK_BYTES, c);
    PiecesJoined(was, middle, request[..], a, b, c);
    ok := true;
  }

  /** What a slot contributes, and whether capture may go on to the next. */
  function Piece(s: Slot): ByteSeq { match s case Null(_) => [] case Buffer(b) => b[..Capped(|b|)] }

  predicate Whole(s: Slot) { match s case Null(n) => n == 0 case Buffer(b) => |b| <= CHUNK_BYTES }

  method CaptureSlot(s: Slot, request: array<Byte>, at: nat) returns (copied: nat, contiguous: bool)
    requires request.Length == REQUEST_BYTES && at + CHUNK_BYTES <= REQUEST_BYTES
    modifies request
    ensures copied == |Piece(s)| <= CHUNK_BYTES && contiguous == Whole(s) && request[at..at + copied] == Piece(s)
    ensures forall j | 0 <= j < at || at + CHUNK_BYTES <= j < REQUEST_BYTES :: request[j] == old(request[j])
  {
    copied, contiguous := 0, true;
    if s.Buffer? && |s.bytes| > 0 {
      copied := CopySlot(s.bytes, request, at);
      contiguous := copied == |s.bytes|;
    } else if s.Length() > 0 {
      contiguous := false;
    }
  }

  function Pieces(v: seq<Slot>): (ByteSeq, ByteSeq, ByteSeq)
  {
    var a := if |v| > 0 then Piece(v[0]) else [];
    var on := |v| == 0 || Whole(v[0]);
    var b := if |v| > 1 && on then Piece(v[1]) else [];
    var still := on && (|v| <= 1 || Whole(v[1]));
    var c := if |v| > 2 && still then Piece(v[2]) else [];
    (a, b, c)
  }

  method CopySlots(v: seq<Slot>, request: array<Byte>) returns (lens: Lens)
    requires request.Length == REQUEST_BYTES
    modifies request
    ensures Holds(request[..], lens, Pieces(v).0, Pieces(v).1, Pieces(v).2)
  {
    hide Piece, Whole;
    var first, second, third, contiguous := 0, 0, 0, true;
    if |v| > 0 {
      first, contiguous := CaptureSlot(v[0], request, 0);
    }
    label One:
    if |v| > 1 && contiguous {
      second, contiguous := CaptureSlot(v[1], request, CHUNK_BYTES);
      assert request[..first] == old@One(request[..first]);
    }
    label Two:
    if |v| > 2 && contiguous {
      third, contiguous := CaptureSlot(v[2], request, 2 * CHUNK_BYTES);
      assert request[..first] == old@Two(request[..first]);
      assert request[CHUNK_BYTES..CHUNK_BYTES + second] == old@Two(request[CHUNK_BYTES..CHUNK_BYTES + second]);
    }
    lens := Lens(first, second, third);
  }

  lemma {:induction false} DataNext(v: seq<Slot>, n: nat)
    requires n < |v|
    ensures Data(v[..n + 1]) == Data(v[..n]) + if v[n].Null? then [] else v[n].bytes
  {
    assert v[..n + 1][..n] == v[..n];
  }

  lemma {:induction false} DataGrows(v: seq<Slot>, n: nat)
    requires n <= |v|
    ensures Data(v[..n]) <= Data(v)
    decreases |v| - n
  {
    hide Data;
    if n < |v| {
      DataNext(v, n);
      DataGrows(v, n + 1);
    } else {
      assert v[..n] == v;
    }
  }

  lemma {:induction false} PieceNext(v: seq<Slot>, n: nat, done: ByteSeq)
    requires n < |v| && Data(v[..n]) == done
    ensures done + Piece(v[n]) <= Data(v[..n + 1]) && (Whole(v[n]) ==> done + Piece(v[n]) == Data(v[..n + 1]))
  {
    hide Data;
    DataNext(v, n);
    if v[n].Buffer? && |v[n].bytes| <= CHUNK_BYTES {
      assert v[n].bytes[..|v[n].bytes|] == v[n].bytes;
    }
  }

  /** The pieces, joined, are a prefix of the data. */
  lemma {:induction false} PiecesArePrefix(v: seq<Slot>)
    ensures Pieces(v).0 + Pieces(v).1 + Pieces(v).2 <= Data(v)
  {
    hide Data, Piece, Whole;
    var (a, b, c) := Pieces(v);
    assert Data(v[..0]) == [] by { NoData(v); }
    if |v| > 0 {
      PieceNext(v, 0, []);
      DataGrows(v, 1);
      assert [] + Piece(v[0]) == a;
      assert a + b + c == a + (b + c);
      if Whole(v[0]) && |v| > 1 {
        PieceNext(v, 1, a);
        DataGrows(v, 2);
        if Whole(v[1]) && |v| > 2 {
          PieceNext(v, 2, a + b);
          DataGrows(v, 3);
        }
      }
    }
  }

  lemma {:induction false} NoData(v: seq<Slot>)
    ensures Data(v[..0]) == []
  {}

  /** Capture and compaction together. */
  method CaptureRequest(v: seq<Slot>, request: array<Byte>) returns (len: nat)
    requires request.Length == REQUEST_BYTES
    modifies request
    ensures len <= 3 * CHUNK_BYTES && request[..len] == Pieces(v).0 + Pieces(v).1 + Pieces(v).2 && request[..len] <= Data(v)
  {
    hide Data, Pieces;
    var lens := CopySlots(v, request);
    len := lens.Total();
    var ok := Compact(request, lens, len);
    PiecesArePrefix(v);
  }
}
