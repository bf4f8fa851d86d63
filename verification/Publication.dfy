/** Repacking a state frame and publishing it to shared memory, as one uninterrupted call. */
module Publication {

  newtype byte = b: int | 0 <= b < 256

  /** A double or a 64-bit timestamp as stored. */
  type Word = w: seq<byte> | |w| == 8 witness [0, 0, 0, 0, 0, 0, 0, 0]

  const FRAME_SIZE := 104
  const IMAGE_SIZE := 184
  const REGION_SIZE := 10000

  type Picture = s: seq<byte> | |s| == IMAGE_SIZE witness seq(184, i => 0)

  function Zeros(n: nat): (z: seq<byte>)
    ensures |z| == n
  {
    seq(n, i => 0)
  }

  /** The packed ShmData: timestamp, six joint words, four axis words, six TCP words and
      the TCP words again as the flange. In the packed frame the joint words start at byte
      6 and the TCP words at byte 54. */
  function Image(frame: seq<byte>, stamp: Word, axes: seq<Word>): (img: Picture)
    requires |frame| == FRAME_SIZE && |axes| == 4
  {
    ConcatLength(axes);
    stamp + frame[6..54] + Concat(axes) + frame[54..102] + frame[54..102]
  }

  function Concat(words: seq<Word>): seq<byte> {
    if words == [] then [] else words[0] + Concat(words[1..])
  }

  lemma {:induction false} ConcatLength(words: seq<Word>)
    ensures |Concat(words)| == 8 * |words|
  {
    if words != [] {
      ConcatLength(words[1..]);
    }
  }

  function WordAt(bytes: seq<byte>, offset: nat): Word
    requires offset + 8 <= |bytes|
  {
    bytes[offset..offset + 8]
  }

  lemma {:induction false} ConcatWords(bytes: seq<byte>, offset: nat, words: seq<Word>)
    requires offset + 8 * |words| <= |bytes|
    requires forall i :: 0 <= i < |words| ==> words[i] == WordAt(bytes, offset + 8 * i)
    ensures Concat(words) == bytes[offset..offset + 8 * |words|]
    decreases |words|
  {
    if words != [] {
      var stop := offset + 8 * |words|;
      assert words[0] == WordAt(bytes, offset + 8 * 0) == bytes[offset..offset + 8];
      hide WordAt;
      forall i | 0 <= i < |words| - 1 ensures words[1..][i] == WordAt(bytes, offset + 8 + 8 * i) {
        assert words[1..][i] == words[i + 1] == WordAt(bytes, offset + 8 * (i + 1));
      }
      ConcatWords(bytes, offset + 8, words[1..]);
      assert bytes[offset..offset + 8] + bytes[offset + 8..stop] == bytes[offset..stop];
    } else {
      assert bytes[offset..offset] == [];
    }
  }

  /** Every word of the image, by its position. */
  lemma ImageWords(frame: seq<byte>, stamp: Word, axes: seq<Word>, i: nat)
    requires |frame| == FRAME_SIZE && |axes| == 4 && i < 6
    ensures var img := Image(frame, stamp, axes);
            && WordAt(img, 0) == stamp
            && WordAt(img, 8 + 8 * i) == WordAt(frame, 6 + 8 * i)
            && (i < 4 ==> WordAt(img, 56 + 8 * i) == axes[i])
            && WordAt(img, 88 + 8 * i) == WordAt(frame, 54 + 8 * i)
            && WordAt(img, 136 + 8 * i) == WordAt(img, 88 + 8 * i)
  {
    var img := Image(frame, stamp, axes);
    ConcatLength(axes);
    assert img[8..56] == frame[6..54] && img[56..88] == Concat(axes);
    assert img[88..136] == frame[54..102] && img[136..184] == frame[54..102];
    SubSlice(img, 8, 56, 8 * i);
    SubSlice(frame, 6, 54, 8 * i);
    SubSlice(img, 88, 136, 8 * i);
    SubSlice(frame, 54, 102, 8 * i);
    SubSlice(img, 136, 184, 8 * i);
    if i < 4 {
      SubSlice(img, 56, 88, 8 * i);
      ConcatAt(axes, i);
    }
  }

  lemma SubSlice(s: seq<byte>, lo: nat, hi: nat, k: nat)
    requires lo + k + 8 <= hi <= |s|
    ensures WordAt(s, lo + k) == WordAt(s[lo..hi], k)
  {
    var t := s[lo..hi];
    assert forall i :: k <= i < k + 8 ==> t[i] == s[lo + i];
    assert t[k..k + 8] == s[lo + k..lo + k + 8];
  }

  lemma {:induction false} ConcatAt(words: seq<Word>, i: nat)
    requires i < |words|
    ensures |Concat(words)| == 8 * |words| && Concat(words)[8 * i..8 * i + 8] == words[i]
  {
    ConcatLength(words);
    if i > 0 {
      ConcatAt(words[1..], i - 1);
      assert Concat(words)[8 * i..8 * i + 8] == Concat(words[1..])[8 * (i - 1)..8 * (i - 1) + 8];
    }
  }

  class Publisher {
    /** The mapped region and the semaphore value. */
    const shm: array<byte>
    var sem: nat

    ghost predicate Valid()
      reads this
    {
      shm.Length == REGION_SIZE
    }

    constructor ()
      ensures Valid() && fresh(shm) && shm[..] == Zeros(REGION_SIZE) && sem == 1
    {
      shm := new byte[REGION_SIZE](i => 0);
      sem := 1;
    }

    /** Six joint words, and six TCP words twice, copied word by word. */
    method Repack(frame: seq<byte>, stamp: Word, axes: seq<Word>) returns (img: Picture)
      requires |frame| == FRAME_SIZE && |axes| == 4
      ensures img == Image(frame, stamp, axes)
    {
      var jnt, tcp, flange := new Word[6], new Word[6], new Word[6];
      var exaxis := new Word[4];
      for i := 0 to 6
        invariant forall k :: 0 <= k < i ==> jnt[k] == WordAt(frame, 6 + 8 * k)
        invariant forall k :: 0 <= k < i ==> tcp[k] == flange[k] == WordAt(frame, 54 + 8 * k)
      {
        jnt[i] := WordAt(frame, 6 + 8 * i);
        tcp[i] := WordAt(frame, 54 + 8 * i);
        flange[i] := WordAt(frame, 54 + 8 * i);
      }
      for i := 0 to 4
        invariant forall k :: 0 <= k < i ==> exaxis[k] == axes[k]
        invariant forall k :: 0 <= k < 6 ==> jnt[k] == WordAt(frame, 6 + 8 * k)
        invariant forall k :: 0 <= k < 6 ==> tcp[k] == flange[k] == WordAt(frame, 54 + 8 * k)
      {
        exaxis[i] := axes[i];
      }
      assert exaxis[..] == axes;
      ConcatLength(axes);
      ConcatWords(frame, 6, jnt[..]);
      ConcatWords(frame, 54, tcp[..]);
      ConcatWords(frame, 54, flange[..]);
      img := stamp + Concat(jnt[..]) + Concat(exaxis[..]) + Concat(tcp[..]) + Concat(flange[..]);
    }

    /** The timer callback on one datagram (empty when nothing was received). `recvfrom`
        cuts a longer datagram to the frame size, so it is accepted too. */
    method StateRecvCallback(datagram: seq<byte>, stamp: Word, axes: seq<Word>)
      requires Valid() && |axes| == 4
      modifies this`sem, shm
      ensures Valid() && sem == old(sem)
      ensures shm[..] ==
              if |datagram| >= FRAME_SIZE && old(sem) > 0
              then Image(datagram[..FRAME_SIZE], stamp, axes) + old(shm[..])[IMAGE_SIZE..]
              else old(shm[..])
    {
      hide Image;
      var received := if |datagram| > FRAME_SIZE then datagram[..FRAME_SIZE] else datagram;
      if |received| == FRAME_SIZE {
        assert received == datagram[..FRAME_SIZE];
        var img := Repack(received, stamp, axes);
        if sem > 0 {
          sem := sem - 1;
          Copy(img);
          sem := sem + 1;
        }
      }
    }

    /** `memcpy` of an image to the start of the region. */
    method Copy(img: Picture)
      requires Valid()
      modifies shm
      ensures shm[..] == img + old(shm[..])[IMAGE_SIZE..]
    {
      for k := 0 to |img|
        invariant forall i :: 0 <= i < k ==> shm[i] == img[i]
        invariant forall i :: k <= i < shm.Length ==> shm[i] == old(shm[i])
      {
        shm[k] := img[k];
      }
    }
  }
}
