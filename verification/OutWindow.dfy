/**
 The output side of inflate: the caller's buffer for this call and the circular window,
 which holds what was written before it.  Together they are the history of the output.
 */
module OutWindow {
  import opened Bits
  import opened Tokens

  /** Index of the byte `k` back from the write position. */
  function Place(write: nat, k: nat): int {
    if k <= write then write - k else WSIZE + write - k
  }

  /** The window holds the last `whave` bytes of the history. */
  ghost predicate WindowIs(window: seq<byte>, whave: nat, write: nat, hist: seq<byte>) {
    && |window| == WSIZE && write < WSIZE && whave <= WSIZE && whave == (if |hist| < WSIZE then |hist| else WSIZE)
    && (whave < WSIZE ==> write == whave)
    && forall k :: 1 <= k <= whave ==> 0 <= Place(write, k) < WSIZE && window[Place(write, k)] == hist[|hist| - k]
  }

  lemma {:induction false} CopySnoc(h: seq<byte>, d: nat, n: nat)
    ensures CopyMatch(h, d, n + 1) == CopyMatch(h, d, n) + [Back(CopyMatch(h, d, n), d)]
    decreases n
  {
    if n > 0 {
      CopySnoc(h + [Back(h, d)], d, n - 1);
    }
  }

  lemma {:induction false} CopySplit(h: seq<byte>, d: nat, m: nat, n: nat)
    ensures CopyMatch(h, d, m + n) == CopyMatch(CopyMatch(h, d, m), d, n)
    decreases m
  {
    if m > 0 {
      CopySplit(h + [Back(h, d)], d, m - 1, n);
    }
  }

  /** Where the byte `dist` back is: in the window or in the buffer. */
  ghost predicate Source(put: nat, whave: nat, write: nat, inWindow: bool, from: int, dist: nat) {
    if inWindow then put < dist <= put + whave && from == Place(write, dist - put)
    else 1 <= dist <= put && from == put - dist
  }

  /** The source of the next byte is the next index, unless the window ends here. */
  lemma NextSource(put: nat, whave: nat, write: nat, inWindow: bool, from: nat, dist: nat)
    requires Source(put, whave, write, inWindow, from, dist)
    requires inWindow ==> put + 1 < dist && from + 1 < WSIZE && write < WSIZE
    ensures Source(put + 1, whave, write, inWindow, from + 1, dist)
  {
  }

  lemma CopyNone(h: seq<byte>, d: nat)
    ensures CopyMatch(h, d, 0) == h
  {
  }

  lemma Later(put: nat, whave: nat, write: nat, inWindow: bool, from: nat, dist: nat, n: nat)
    requires Source(put, whave, write, inWindow, from, dist)
    requires inWindow ==> put + n < dist && from + n < WSIZE && write < WSIZE
    ensures Source(put + n, whave, write, inWindow, from + n, dist)
  {
  }

  // ---------- updating the window ----------

  /** zmemcpy between different buffers. */
  method Blit(src: array<byte>, from: nat, dst: array<byte>, at: nat, n: nat)
    requires src != dst && from + n <= src.Length && at + n <= dst.Length
    modifies dst
    ensures forall i :: 0 <= i < dst.Length ==> dst[i] == if at <= i < at + n then src[from + i - at] else old(dst[i])
  {
    var i := 0;
    while i < n
      invariant 0 <= i <= n
      invariant forall j ::
                  0 <= j < dst.Length ==> dst[j] == if at <= j < at + i then src[from + j - at] else old(dst[j])
    {
      dst[at + i] := src[from + i];
      i := i + 1;
    }
  }

  lemma EmptyWindow(w: seq<byte>)
    requires |w| == WSIZE
    ensures WindowIs(w, 0, 0, [])
  {
  }

  lemma LastBytes(w: seq<byte>, h: seq<byte>, o: seq<byte>)
    requires |w| == WSIZE <= |o| && forall i :: 0 <= i < WSIZE ==> w[i] == o[|o| - WSIZE + i]
    ensures WindowIs(w, WSIZE, 0, h + o)
  {
  }

  /** The new bytes fit before the end of the window. */
  lemma PlainWrite(w: seq<byte>, w': seq<byte>, whave: nat, write: nat, h: seq<byte>, o: seq<byte>)
    requires WindowIs(w, whave, write, h) && |w'| == WSIZE && write + |o| <= WSIZE && |o| < WSIZE
    requires forall i :: 0 <= i < WSIZE ==> w'[i] == if write <= i < write + |o| then o[i - write] else w[i]
    ensures WindowIs(w', if whave < WSIZE then whave + |o| else whave, if write + |o| == WSIZE then 0 else write + |o|,
            h + o)
  {
    var n := if whave < WSIZE then whave + |o| else whave;
    var p := if write + |o| == WSIZE then 0 else write + |o|;
    forall k | 1 <= k <= n ensures 0 <= Place(p, k) < WSIZE && w'[Place(p, k)] == (h + o)[|h + o| - k] {
      if k > |o| {
        assert w[Place(write, k - |o|)] == h[|h| - (k - |o|)];
      }
    }
  }

  /** The new bytes go on at the start of the window. */
  lemma WrapWrite(w: seq<byte>, w': seq<byte>, whave: nat, write: nat, h: seq<byte>, o: seq<byte>, c: nat)
    requires WindowIs(w, whave, write, h) && |w'| == WSIZE && |o| < WSIZE && write + |o| == WSIZE + c && c > 0
    requires forall i ::
               0 <= i < WSIZE ==> w'[i] == if i < c then o[|o| - c + i] else if write <= i then o[i - write] else w[i]
    ensures WindowIs(w', WSIZE, c, h + o)
  {
    forall k | 1 <= k <= WSIZE ensures 0 <= Place(c, k) < WSIZE && w'[Place(c, k)] == (h + o)[|h + o| - k] {
      if k > |o| {
        assert w[Place(write, k - |o|)] == h[|h| - (k - |o|)];
      }
    }
  }

  class Output {
    var out: array<byte>
    var put: nat
    const window: array<byte>
    var wsize: nat
    var whave: nat
    var write: nat
    ghost var hist: seq<byte>

    ghost predicate WindowOk()
      reads this, window
    {
      && window.Length == WSIZE
      && (wsize == 0 ==> hist == [] && whave == 0 && write == 0)
      && (wsize != 0 ==> wsize == WSIZE && WindowIs(window[..], whave, write, hist))
    }

    ghost predicate Valid()
      reads this, window, out
    {
      WindowOk() && put <= out.Length && out != window
    }

    /** Everything written so far. */
    ghost function All(): seq<byte>
      requires put <= out.Length
      reads this, out
    {
      hist + out[..put]
    }

    constructor ()
      ensures Valid() && All() == [] && hist == [] && put == 0 && fresh(window) && fresh(out) && wsize == 0
    {
      window := new byte[WSIZE](_ => 0);
      out := new byte[0];
      put, wsize, whave, write, hist := 0, 0, 0, 0, [];
    }

    /** The check of DISTEXT is exact, although only the window is looked at. */
    lemma TooFarIs(offset: nat)
      requires Valid() && offset <= WSIZE
      ensures offset > whave + put <==> offset > |All()|
    {
    }

    method PutByte(b: byte)
      requires Valid() && put < out.Length
      modifies this`put, out
      ensures Valid() && All() == old(All()) + [b] && put == old(put) + 1
    {
      ghost var w := window[..];
      ghost var o := out[..put];
      out[put] := b;
      put := put + 1;
      assert out[..put] == o + [b];
      assert window[..] == w;
    }

    lemma SourceIs(inWindow: bool, from: int, dist: nat)
      requires Valid() && Source(put, whave, write, inWindow, from, dist)
      ensures 1 <= dist <= |All()|
      ensures inWindow ==> 0 <= from < WSIZE && window[from] == Back(All(), dist)
      ensures !inWindow ==> 0 <= from < put && out[from] == Back(All(), dist)
    {
      if inWindow {
        var k := dist - put;
        assert window[..][Place(write, k)] == hist[|hist| - k];
        assert |All()| - dist == |hist| - k;
      } else {
        assert |All()| - dist == |hist| + from;
      }
    }

    /** One byte of a copy. */
    method CopyOne(inWindow: bool, from: nat, ghost dist: nat)
      requires Valid() && put < out.Length && Source(put, whave, write, inWindow, from, dist)
      modifies this`put, out
      ensures Valid() && put == old(put) + 1 && All() == old(All()) + [Back(old(All()), dist)]
    {
      hide Back, WindowIs, Source;
      SourceIs(inWindow, from, dist);
      if inWindow {
        PutByte(window[from]);
      } else {
        PutByte(out[from]);
      }
    }

    /** A run of bytes from consecutive indices. */
    method CopyRun(inWindow: bool, from: nat, n: nat, ghost dist: nat)
      requires Valid() && put + n <= out.Length && (n > 0 ==> Source(put, whave, write, inWindow, from, dist))
      requires inWindow && n > 0 ==> put + n <= dist && from + n <= WSIZE
      modifies this`put, out
      ensures Valid() && put == old(put) + n && All() == CopyMatch(old(All()), dist, n)
    {
      hide Back, WindowIs, Source;
      var i := 0;
      ghost var h := All();
      while i < n
        invariant 0 <= i <= n && Valid() && put == old(put) + i && All() == CopyMatch(h, dist, i)
        invariant i < n ==> Source(put, whave, write, inWindow, from + i, dist)
      {
        CopySnoc(h, dist, i);
        if i + 1 < n {
          WriteBound();
          NextSource(put, whave, write, inWindow, from + i, dist);
        }
        CopyOne(inWindow, from + i, dist);
        i := i + 1;
      }
    }

    /** MATCH: copy as much of a match as one contiguous source and the room allow. */
    method CopySome(offset: nat, length: nat) returns (n: nat)
      requires Valid() && put < out.Length && length >= 1 && 1 <= offset <= WSIZE && offset <= |All()|
      modifies this`put, out
      ensures Valid() && 1 <= n <= length && put == old(put) + n && All() == CopyMatch(old(All()), offset, n)
    {
      hide Back, WindowIs, CopyMatch;
      WriteBound();
      TooFarIs(offset);
      var left := out.Length - put;
      var copy := put;
      if offset > copy {
        copy := offset - copy;
        var from: int;
        if copy > write {
          WindowWhole(copy);
          copy := copy - write;
          from := wsize - copy;
        } else {
          from := write - copy;
        }
        if copy > length {
          copy := length;
        }
        if copy > left {
          copy := left;
        }
        n := copy;
        CopyRun(true, from, n, offset);
      } else {
        n := if length > left then left else length;
        CopyRun(false, put - offset, n, offset);
      }
    }

    /** Only a full window is read beyond its write position. */
    lemma WindowWhole(k: nat)
      requires Valid() && write < k <= whave
      ensures wsize == WSIZE && whave == WSIZE
    {
    }

    /** The unrolled loops of inflate_fast: three bytes at a time, then what is left. */
    method CopyTail(inWindow: bool, from0: nat, len0: nat, ghost dist: nat)
      requires Valid() && put + len0 <= out.Length && (len0 > 0 ==> Source(put, whave, write, inWindow, from0, dist))
      requires inWindow && len0 > 0 ==> put + len0 <= dist && from0 + len0 <= WSIZE
      modifies this`put, out
      ensures Valid() && put == old(put) + len0 && All() == CopyMatch(old(All()), dist, len0)
    {
      hide Back, WindowIs, CopyMatch, Source;
      ghost var h := All();
      var len, from := len0, from0;
      assert CopyMatch(h, dist, 0) == h by { CopyNone(h, dist); }
      while len > 2
        invariant 0 <= len <= len0 && from - from0 == len0 - len && Valid() && put == old(put) + len0 - len
        invariant All() == CopyMatch(h, dist, len0 - len)
        invariant len > 0 ==> Source(put, whave, write, inWindow, from, dist)
      {
        CopySplit(h, dist, len0 - len, 3);
        WriteBound();
        if len > 3 {
          Later(put, whave, write, inWindow, from, dist, 3);
        }
        CopyRun(inWindow, from, 3, dist);
        from := from + 3;
        len := len - 3;
      }
      CopySplit(h, dist, len0 - len, len);
      CopyRun(inWindow, from, len, dist);
    }

    /** Bytes from the window, and the rest from the buffer: what is still to copy, and from where. */
    method CopyThenBuffer(from0: nat, op: nat, len0: nat, dist: nat) returns (inWindow: bool, from: int, len: nat)
      requires Valid() && len0 >= 1 && put + len0 <= out.Length && op >= 1 && put + op == dist
      requires Source(put, whave, write, true, from0, dist) && from0 + op <= WSIZE
      modifies this`put, out
      ensures Valid() && 1 <= len <= len0 && put == old(put) + len0 - len
      ensures All() == CopyMatch(old(All()), dist, len0 - len)
      ensures Source(put, whave, write, inWindow, from, dist) && (inWindow ==> put + len <= dist && from + len <= WSIZE)
    {
      hide Back, WindowIs, CopyMatch;
      ghost var h := All();
      CopyNone(h, dist);
      inWindow, from, len := true, from0, len0;
      if op < len {
        len := len - op;
        CopyRun(true, from, op, dist);
        inWindow, from := false, put - dist;
      }
    }

    /** The source wraps around the end of the window. */
    method CopyWrapped(op0: nat, len0: nat, dist: nat) returns (inWindow: bool, from: int, len: nat)
      requires Valid() && len0 >= 1 && put + len0 <= out.Length && 0 < write < op0 <= whave == wsize == WSIZE
      requires put + op0 == dist
      modifies this`put, out
      ensures Valid() && 1 <= len <= len0 && put == old(put) + len0 - len
      ensures All() == CopyMatch(old(All()), dist, len0 - len)
      ensures Source(put, whave, write, inWindow, from, dist) && (inWindow ==> put + len <= dist && from + len <= WSIZE)
    {
      hide Back, WindowIs, CopyMatch;
      ghost var h := All();
      CopyNone(h, dist);
      var op := op0;
      inWindow, from, len := true, wsize + write - op, len0;
      op := op - write;
      if op < len {
        len := len - op;
        CopyRun(true, from, op, dist);
        ghost var rest := len;
        inWindow, from, len := CopyThenBuffer(0, write, len, dist);
        CopySplit(h, dist, op, rest - len);
      }
    }

    /** The three cases of a source that starts in the window. */
    method CopyFromWindow(dist: nat, len0: nat) returns (inWindow: bool, from: int, len: nat)
      requires Valid() && len0 >= 1 && put + len0 <= out.Length && put < dist <= put + whave
      modifies this`put, out
      ensures Valid() && 1 <= len <= len0 && put == old(put) + len0 - len
      ensures All() == CopyMatch(old(All()), dist, len0 - len)
      ensures Source(put, whave, write, inWindow, from, dist) && (inWindow ==> put + len <= dist && from + len <= WSIZE)
    {
      hide Back, WindowIs, CopyMatch, All;
      WriteBound();
      var op := dist - put;
      InUse(op);
      if op > write {
        WindowWhole(op);
      }
      if write == 0 {
        inWindow, from, len := CopyThenBuffer(wsize - op, op, len0, dist);
      } else if write < op {
        inWindow, from, len := CopyWrapped(op, len0, dist);
      } else {
        inWindow, from, len := CopyThenBuffer(write - op, op, len0, dist);
      }
    }

    /** inflate_fast's copy: the end of the window, its start, then the buffer. */
    method CopyFast(dist: nat, len0: nat)
      requires Valid() && len0 >= 3 && put + len0 <= out.Length && 1 <= dist <= WSIZE && dist <= |All()|
      modifies this`put, out
      ensures Valid() && put == old(put) + len0 && All() == CopyMatch(old(All()), dist, len0)
    {
      hide Back, WindowIs, CopyMatch, All;
      TooFarIs(dist);
      ghost var h := All();
      if dist > put {
        var inWindow, from, len := CopyFromWindow(dist, len0);
        CopySplit(h, dist, len0 - len, len);
        CopyTail(inWindow, from, len, dist);
      } else {
        CopyTail(false, put - dist, len0, dist);
      }
    }

    lemma InUse(k: nat)
      requires Valid() && 1 <= k <= whave
      ensures wsize == WSIZE
    {
    }

    /** Fewer bytes than the window holds: write them after the others, around its end. */
    method WriteCircular()
      requires Valid() && wsize == WSIZE && put < wsize
      modifies this`whave, this`write, window
      ensures window.Length == WSIZE && WindowIs(window[..], whave, write, old(All()))
    {
      hide WindowIs;
      ghost var h, o, w0 := hist, out[..put], window[..];
      WriteBound();
      var copy := put;
      var dist := wsize - write;
      if dist > copy {
        dist := copy;
      }
      Blit(out, put - copy, window, write, dist);
      copy := copy - dist;
      if copy != 0 {
        Blit(out, put - copy, window, 0, copy);
        WrapWrite(w0, window[..], whave, write, h, o, copy);
        write, whave := copy, wsize;
      } else {
        PlainWrite(w0, window[..], whave, write, h, o);
        write := write + dist;
        if write == wsize {
          write := 0;
        }
        if whave < wsize {
          whave := whave + dist;
        }
      }
    }

    /** updatewindow: after the call the window holds the end of the longer history. */
    method UpdateWindow()
      requires Valid()
      modifies this`wsize, this`whave, this`write, this`hist, this`put, window
      ensures WindowOk() && wsize == WSIZE && hist == old(All()) && put == 0 && out == old(out)
    {
      hide WindowIs;
      if wsize == 0 {
        wsize, write, whave := WSIZE, 0, 0;
        EmptyWindow(window[..]);
      }
      if put >= wsize {
        ghost var h, o := hist, out[..put];
        Blit(out, put - wsize, window, 0, wsize);
        LastBytes(window[..], h, o);
        write, whave := 0, wsize;
      } else {
        WriteCircular();
      }
      hist := hist + out[..put];
      put := 0;
    }

    lemma WriteBound()
      requires Valid()
      ensures write < WSIZE
    {
    }
  }
}
