/**
 * The byte image of the stack-argument buffer handed to the trampoline.
 * The façade builds its buffer as an array of 64-bit words (or of zero bytes);
 * the dispatcher sees only bytes, laid out little-endian as on x86-64.
 * A 64-bit slot `k` occupies bytes `8*k .. 8*k+8`.
 */
module StackImage {
  import opened EfiTypes

  function Pow256(count: nat): (p: nat)
    ensures p > 0
  {
    if count == 0 then 1 else 256 * Pow256(count - 1)
  }

  /** The `count` low-order bytes of `n`, least significant first. */
  function LittleEndian(n: nat, count: nat): (r: seq<uint8>)
    ensures |r| == count
  {
    if count == 0 then [] else [(n % 256) as uint8] + LittleEndian(n / 256, count - 1)
  }

  /** The number whose little-endian bytes are `b`. */
  function ValueOf(b: seq<uint8>): (v: nat)
    ensures v < Pow256(|b|)
  {
    if b == [] then 0 else b[0] as nat + 256 * ValueOf(b[1..])
  }

  lemma DivBelow(n: nat, d: nat, p: nat)
    requires d > 0 && n < d * p
    ensures n / d < p
  {
  }

  /** Reading back `count` little-endian bytes gives the number when it fits. */
  lemma {:induction false} LittleEndianRoundTrip(n: nat, count: nat)
    requires n < Pow256(count)
    ensures ValueOf(LittleEndian(n, count)) == n
  {
    if count > 0 {
      assert n / 256 < Pow256(count - 1) by {
        assert n < 256 * Pow256(count - 1);
        DivBelow(n, 256, Pow256(count - 1));
      }
      LittleEndianRoundTrip(n / 256, count - 1);
      var b := LittleEndian(n, count);
      assert b[0] as nat == n % 256;
      assert b[1..] == LittleEndian(n / 256, count - 1);
      assert n == n % 256 + 256 * (n / 256);
    }
  }

  /** Little-endian bytes of one 64-bit word. */
  function WordBytes(w: uint64): (r: seq<uint8>)
    ensures |r| == 8
  {
    LittleEndian(w as nat, 8)
  }

  /** The 64-bit word whose little-endian bytes are `b`. */
  function WordOf(b: seq<uint8>): (w: uint64)
    requires |b| == 8
  {
    assert Pow256(8) == 0x1_0000_0000_0000_0000;
    ValueOf(b) as uint64
  }

  /** Reading back a word written little-endian gives the word. */
  lemma WordRoundTrip(w: uint64)
    ensures WordOf(WordBytes(w)) == w
  {
    assert Pow256(8) == 0x1_0000_0000_0000_0000;
    LittleEndianRoundTrip(w as nat, 8);
  }

  /** Zero written little-endian in any number of bytes is that many zero bytes. */
  lemma {:induction false} ZeroBytes(count: nat)
    ensures LittleEndian(0, count) == Zeros(count)
  {
    if count > 0 {
      ZeroBytes(count - 1);
      assert LittleEndian(0, count) == [0] + Zeros(count - 1);
    }
  }

  /** The byte image of an array of 64-bit words (`uint64_t stack[n]`). */
  function Image(ws: seq<uint64>): (r: seq<uint8>)
    ensures |r| == 8 * |ws|
  {
    if ws == [] then [] else WordBytes(ws[0]) + Image(ws[1..])
  }

  /** The image of a concatenation is the concatenation of the images. */
  lemma {:induction false} ImageAppend(a: seq<uint64>, b: seq<uint64>)
    ensures Image(a + b) == Image(a) + Image(b)
  {
    if a != [] {
      assert (a + b)[1..] == a[1..] + b;
      ImageAppend(a[1..], b);
    } else {
      assert a + b == b;
    }
  }

  /** The word held in slot `k` of a byte buffer. */
  function Slot(b: seq<uint8>, k: nat): (w: uint64)
    requires 8 * k + 8 <= |b|
  {
    WordOf(b[8 * k .. 8 * k + 8])
  }

  /** Slot `k` of the image of `ws` holds exactly the bytes of `ws[k]`. */
  lemma {:induction false} ImageSlotBytes(ws: seq<uint64>, k: nat)
    requires k < |ws|
    ensures |Image(ws)| == 8 * |ws|
    ensures Image(ws)[8 * k .. 8 * k + 8] == WordBytes(ws[k])
  {
    if k > 0 {
      ImageSlotBytes(ws[1..], k - 1);
      var tail := Image(ws[1..]);
      assert Image(ws) == WordBytes(ws[0]) + tail;
      assert Image(ws)[8 * k .. 8 * k + 8]
          == tail[8 * (k - 1) .. 8 * (k - 1) + 8];
    }
  }

  /** Round trip: slot `k` of the image of `ws` reads back as `ws[k]`. */
  lemma ImageSlot(ws: seq<uint64>, k: nat)
    requires k < |ws|
    ensures 8 * k + 8 <= |Image(ws)|
    ensures Slot(Image(ws), k) == ws[k]
  {
    ImageSlotBytes(ws, k);
    WordRoundTrip(ws[k]);
  }

  /** A buffer of `n` zero bytes (`uint8_t stack[n] {}`). */
  function Zeros(n: nat): (r: seq<uint8>)
    ensures |r| == n
    ensures forall i :: 0 <= i < n ==> r[i] == 0
  {
    seq(n, i => 0)
  }

  /** The image of all-zero words is all zero bytes. */
  lemma {:induction false} ImageOfZeros(ws: seq<uint64>)
    requires forall k :: 0 <= k < |ws| ==> ws[k] == 0
    ensures Image(ws) == Zeros(8 * |ws|)
  {
    if ws != [] {
      ImageOfZeros(ws[1..]);
      ZeroBytes(8);
      assert Image(ws) == WordBytes(0) + Zeros(8 * (|ws| - 1));
    }
  }
}
