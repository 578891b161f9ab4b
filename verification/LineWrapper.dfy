/**
  The line wrapper of the usage formatter: it cuts text into pieces that fit
  its column, queues them in a ring buffer, and writes one queued piece for
  each piece of text it is given, more only to make room.
*/
module LineWrapper {
  import opened Utf8Width
  import opened GreedyWrap
  import opened Sequences

  /** What is written: payload that was queued, or line breaks and indentation. */
  datatype Chunk = Payload(text: seq<Byte>) | Layout(text: seq<Byte>)

  /** The pieces of payload among what was written. */
  function Payloads(out: seq<Chunk>): (pieces: seq<seq<Byte>>) {
    if out == [] then [] else
      var n := |out| - 1;
      Payloads(out[..n]) + if out[n].Payload? then [out[n].text] else []
  }

  lemma {:induction false} PayloadsJoin(a: seq<Chunk>, b: seq<Chunk>)
    ensures Payloads(a + b) == Payloads(a) + Payloads(b)
  {
    if b == [] {
      assert a + b == a;
    } else {
      var n := |b| - 1;
      PayloadsJoin(a, b[..n]);
      assert (a + b)[..|a| + n] == a + b[..n];
    }
  }

  class Writer {
    var out: seq<Chunk>

    constructor ()
      ensures out == []
    {
      out := [];
    }

    method Write(c: Chunk)
      modifies this
      ensures out == old(out) + [c]
    {
      out := out + [c];
    }
  }

  const NEWLINE: Byte := 0x0A

  /** `n` times the same layout character. */
  function Spaces(n: nat): (s: seq<Chunk>)
    ensures |s| == n
    decreases n
  {
    if n == 0 then [] else Spaces(n - 1) + [Layout([SPACE])]
  }

  /** From column `x0` to column `want`, on a new line if that is behind it. */
  function Indentation(x0: int, want: int): (s: seq<Chunk>) {
    (if want < x0 then [Layout([NEWLINE])] else [])
    + Spaces(if want >= x0 then want - x0 else if want > 0 then want else 0)
  }

  /** Where the cursor is believed to be then: as wanted, unless it went back to column 0 (or less). */
  function Believed(x0: int, want: int): (x: int)
    ensures x == want <==> !(want < x0 && want <= 0)
  {
    if want < x0 && want <= 0 then x0 else want
  }

  /**
    Moves the cursor from column `x0` to column `want`, on a new line if it is
    behind that column, and returns where it believes the cursor to be.
  */
  method Indent(w: Writer, x0: int, want: int) returns (x: int)
    modifies w
    ensures w.out == old(w.out) + Indentation(x0, want) && x == Believed(x0, want)
  {
    ghost var spaces := Spaces(if want >= x0 then want - x0 else if want > 0 then want else 0);
    Associative(old(w.out), if want < x0 then [Layout([NEWLINE])] else [], spaces);
    x := x0;
    var indent := want - x0;
    if indent < 0 {
      w.Write(Layout([NEWLINE]));
      indent := want;
    }
    if indent > 0 {
      WriteSpaces(w, indent);
      x := want;
    }
  }

  method WriteSpaces(w: Writer, n: nat)
    modifies w
    ensures w.out == old(w.out) + Spaces(n)
  {
    var i := 0;
    while i < n
      invariant 0 <= i <= n
      invariant w.out == old(w.out) + Spaces(i)
    {
      w.Write(Layout([SPACE]));
      Associative(old(w.out), Spaces(i), [Layout([SPACE])]);
      i := i + 1;
    }
  }

  /** From the beginning of a line to column `x`: as `Indent` does it, with a line break if there is no such column. */
  function Margin(x: int): (s: seq<Chunk>) {
    if x < 0 then [Layout([NEWLINE])] else Spaces(x)
  }

  method WriteMargin(w: Writer, x: int)
    modifies w
    ensures w.out == old(w.out) + Margin(x)
  {
    var _ := Indent(w, 0, x);
    assert Spaces(0) == [];
    assert Indentation(0, x) == Margin(x);
  }

  function Break(x: int): seq<Chunk> {
    [Layout([NEWLINE])] + Margin(x)
  }

  /** Pieces one below the other, the later ones behind the margin. */
  function Block(pieces: seq<seq<Byte>>, x: int): (s: seq<Chunk>) {
    if pieces == [] then [] else
      var n := |pieces| - 1;
      Block(pieces[..n], x) + ((if n > 0 then Break(x) else []) + [Payload(pieces[n])])
  }

  lemma BlockGrows(out: seq<Chunk>, pieces: seq<seq<Byte>>, piece: seq<Byte>, x: int)
    ensures out + Block(pieces + [piece], x)
            == out + Block(pieces, x) + ((if pieces != [] then Break(x) else []) + [Payload(piece)])
  {
    assert (pieces + [piece])[..|pieces|] == pieces;
    Associative(out, Block(pieces, x), (if pieces != [] then Break(x) else []) + [Payload(piece)]);
  }

  lemma {:induction false} PayloadsOfSpaces(n: nat)
    ensures Payloads(Spaces(n)) == []
  {
    if n > 0 {
      PayloadsOfSpaces(n - 1);
      PayloadsJoin(Spaces(n - 1), [Layout([SPACE])]);
    }
  }

  lemma PayloadsOfMargin(x: int)
    ensures Payloads(Margin(x)) == [] && Payloads(Break(x)) == []
  {
    if x >= 0 {
      PayloadsOfSpaces(x);
    }
    PayloadsJoin([Layout([NEWLINE])], Margin(x));
  }

  /** The payload of a block are its pieces, in order. */
  lemma {:induction false} PayloadsOfBlock(pieces: seq<seq<Byte>>, x: int)
    ensures Payloads(Block(pieces, x)) == pieces
  {
    if pieces != [] {
      var n := |pieces| - 1;
      var front := if n > 0 then Break(x) else [];
      PayloadsOfBlock(pieces[..n], x);
      PayloadsOfMargin(x);
      PayloadsMore(Block(pieces[..n], x), front, pieces[n]);
      assert pieces == pieces[..n] + [pieces[n]];
    }
  }

  /** One more piece behind some layout. */
  lemma PayloadsMore(out: seq<Chunk>, front: seq<Chunk>, piece: seq<Byte>)
    requires Payloads(front) == []
    ensures Payloads(out + (front + [Payload(piece)])) == Payloads(out) + [piece]
  {
    PayloadsJoin(front, [Payload(piece)]);
    PayloadsJoin(out, front + [Payload(piece)]);
    assert Payloads([Payload(piece)]) == [piece];
  }

  lemma PayloadsOfFlush(out: seq<Chunk>, pieces: seq<seq<Byte>>, x: int)
    ensures Payloads(out + Margin(x) + Block(pieces, x) + [Layout([NEWLINE])]) == Payloads(out) + pieces
  {
    PayloadsOfMargin(x);
    PayloadsJoin(out, Margin(x));
    PayloadsOfBlock(pieces, x);
    PayloadsJoin(out + Margin(x), Block(pieces, x));
    PayloadsJoin(out + Margin(x) + Block(pieces, x), [Layout([NEWLINE])]);
  }

  /** What is written of `queue` when all of it is. */
  function Flushed(queue: seq<seq<Byte>>, x: int): (s: seq<Chunk>) {
    if queue == [] then [] else Margin(x) + Block(queue, x) + [Layout([NEWLINE])]
  }

  /** How many of these pieces are written at once: those for which there is no room, and at least one. */
  function Due(pieces: seq<seq<Byte>>): (n: nat)
    ensures n <= |pieces|
  {
    if |pieces| >= SLOTS then |pieces| - (SLOTS - 1) else if pieces == [] then 0 else 1
  }

  /** No fewer could be written: one, if there is one, and those that leave no more than there are free slots. */
  lemma DueIsLeast(pieces: seq<seq<Byte>>, n: nat)
    requires n <= |pieces|
    ensures (pieces != [] ==> n >= 1) && |pieces| - n <= 15 <==> n >= Due(pieces)
  {
  }

  /** `taken` has been written as a block from the state `out` on, `queue` is what is left of `pieces`. */
  ghost predicate Written(now: seq<Chunk>, out: seq<Chunk>, taken: seq<seq<Byte>>, queue: seq<seq<Byte>>,
                          pieces: seq<seq<Byte>>, x: int) {
    taken + queue == pieces && now == out + Block(taken, x)
  }

  lemma PayloadsOfWritten(now: seq<Chunk>, out: seq<Chunk>, taken: seq<seq<Byte>>, queue: seq<seq<Byte>>,
                          pieces: seq<seq<Byte>>, x: int)
    requires Written(now, out, taken, queue, pieces, x)
    ensures Payloads(now) + queue == Payloads(out) + pieces
    ensures taken == pieces[..|pieces| - |queue|] && queue == pieces[|pieces| - |queue|..]
  {
    PayloadsOfBlock(taken, x);
    PayloadsJoin(out, Block(taken, x));
    Associative(Payloads(out), taken, queue);
  }

  lemma WrittenStep(now: seq<Chunk>, out: seq<Chunk>, taken: seq<seq<Byte>>, queue: seq<seq<Byte>>,
                    pieces: seq<seq<Byte>>, x: int)
    requires Written(now, out, taken, queue, pieces, x) && queue != []
    ensures Written(now + ((if taken != [] then Break(x) else []) + [Payload(queue[0])]), out,
                    taken + [queue[0]], queue[1..], pieces, x)
  {
    BlockGrows(out, taken, queue[0], x);
    HeadMoves(taken, queue);
  }

  const SLOTS: nat := 16

  /** `(index + 1 + k) & 15`: the slot `k` places behind the one after `index`. */
  function Slot(index: nat, k: nat): (i: nat)
    requires index < SLOTS && k < SLOTS
    ensures i < SLOTS && i == (index + 1 + k) % SLOTS
  {
    if index + 1 + k < SLOTS then index + 1 + k else index + 1 + k - SLOTS
  }

  class LineWrapper {
    const lenbuf: array<nat>
    const datbuf: array<seq<Byte>>
    const x: int
    const width: nat
    var head: nat
    var tail: nat
    var wroteSomething: bool
    // the pieces queued, the next one to be written first
    ghost var queue: seq<seq<Byte>>

    /** The slot at `tail` is never used, so that at most 15 pieces are queued. */
    ghost predicate Valid()
      reads this, lenbuf, datbuf
    {
      && lenbuf.Length == SLOTS && datbuf.Length == SLOTS && width >= 2
      && tail < SLOTS && |queue| < SLOTS && head == Slot(tail, |queue|)
      && forall k :: 0 <= k < |queue| ==>
           lenbuf[Slot(tail, k)] <= |datbuf[Slot(tail, k)]|
           && queue[k] == datbuf[Slot(tail, k)][..lenbuf[Slot(tail, k)]]
    }

    ghost function Repr(): set<object> {
      {this, lenbuf, datbuf}
    }

    constructor (x1: int, x2: int)
      ensures Valid() && queue == [] && fresh(Repr())
      ensures x == x1 && width == if x2 - x1 < 2 then 2 else x2 - x1
    {
      lenbuf := new nat[SLOTS];
      datbuf := new seq<Byte>[SLOTS];
      x := x1;
      width := if x2 - x1 < 2 then 2 else x2 - x1;
      head := 0;
      tail := SLOTS - 1;
      wroteSomething := false;
      queue := [];
    }

    method BufEmpty() returns (b: bool)
      requires Valid()
      ensures b <==> queue == []
    {
      b := Slot(tail, 0) == head;
    }

    method BufFull() returns (b: bool)
      requires Valid()
      ensures b <==> |queue| == SLOTS - 1
    {
      b := tail == head;
    }

    method BufStore(data: seq<Byte>, len: nat)
      requires Valid() && |queue| < SLOTS - 1 && len <= |data|
      modifies `head, `queue, lenbuf, datbuf
      ensures Valid() && queue == old(queue) + [data[..len]]
    {
      assert forall k :: 0 <= k < |queue| ==> Slot(tail, k) != head;
      lenbuf[head] := len;
      datbuf[head] := data;
      head := Slot(head, 0);
      queue := queue + [data[..len]];
    }

    /** To be called before the piece at `tail` is read. */
    method BufNext()
      requires Valid() && queue != []
      modifies `tail, `queue
      ensures Valid() && queue == old(queue)[1..]
      ensures lenbuf[tail] <= |datbuf[tail]| && datbuf[tail][..lenbuf[tail]] == old(queue)[0]
    {
      assert forall k :: 0 <= k < |queue| - 1 ==> Slot(Slot(tail, 0), k) == Slot(tail, k + 1);
      tail := Slot(tail, 0);
      queue := queue[1..];
    }

    /** Writes one line: the next piece queued, if any, on a new line if this is not the first. */
    method WriteOneLine(w: Writer)
      requires Valid()
      modifies `tail, `queue, `wroteSomething, w
      ensures Valid() && wroteSomething
      ensures queue == if old(queue) == [] then [] else old(queue)[1..]
      ensures w.out == old(w.out) + ((if old(wroteSomething) then Break(x) else [])
                                     + if old(queue) == [] then [] else [Payload(old(queue)[0])])
    {
      if wroteSomething {
        w.Write(Layout([NEWLINE]));
        WriteMargin(w, x);
      }
      var empty := BufEmpty();
      if !empty {
        WriteNext(w);
      }
      wroteSomething := true;
    }

    method WriteNext(w: Writer)
      requires Valid() && queue != []
      modifies `tail, `queue, w
      ensures Valid() && queue == old(queue)[1..] && w.out == old(w.out) + [Payload(old(queue)[0])]
    {
      BufNext();
      w.Write(Payload(datbuf[tail][..lenbuf[tail]]));
    }

    /** Queues a piece; if the buffer is full, a line is written to make room. */
    method Output(w: Writer, data: seq<Byte>, len: nat)
      requires Valid() && len <= |data|
      modifies Repr(), w
      ensures Valid()
      ensures var full := |old(queue)| == SLOTS - 1;
              && queue == (if full then old(queue)[1..] else old(queue)) + [data[..len]]
              && wroteSomething == (old(wroteSomething) || full)
              && w.out == old(w.out) + if !full then [] else
                   (if old(wroteSomething) then Break(x) else []) + [Payload(old(queue)[0])]
    {
      var full := BufFull();
      if full {
        WriteOneLine(w);
      }
      BufStore(data, len);
    }

    /** Writes everything that is queued, one piece below the other. */
    method WriteAll(w: Writer)
      requires Valid() && !wroteSomething
      modifies `tail, `queue, `wroteSomething, w
      ensures Valid() && queue == [] && w.out == old(w.out) + Block(old(queue), x)
    {
      ghost var taken := [];
      var empty := BufEmpty();
      while !empty
        invariant Valid() && (empty <==> queue == []) && (wroteSomething <==> taken != [])
        invariant Written(w.out, old(w.out), taken, queue, old(queue), x)
        decreases |queue|
      {
        WrittenStep(w.out, old(w.out), taken, queue, old(queue), x);
        taken := taken + [queue[0]];
        WriteOneLine(w);
        empty := BufEmpty();
      }
      assert taken + [] == taken;
    }

    /** Writes everything that is still queued, each piece on an indented line of its own. */
    method Flush(w: Writer)
      requires Valid()
      modifies Repr(), w
      ensures Valid() && queue == []
      ensures Payloads(w.out) == old(Payloads(w.out) + queue)
      ensures w.out == old(w.out) + Flushed(old(queue), x)
    {
      var empty := BufEmpty();
      if empty {
        assert Payloads(w.out) + [] == Payloads(w.out) && w.out + [] == w.out;
        return;
      }
      WriteMargin(w, x);
      wroteSomething := false;
      WriteAll(w);
      w.Write(Layout([NEWLINE]));
      PayloadsOfFlush(old(w.out), old(queue), x);
      JoinedThrice(old(w.out), Margin(x), Block(old(queue), x), [Layout([NEWLINE])]);
    }

    /** The end of the first line of `data`, from `from` on, that is longer than `width` bytes. */
    method Fit(data: seq<Byte>, from: nat) returns (maxi: nat)
      requires from <= |data| && Printable(data)
      ensures maxi == FitEnd(data, from, width)
    {
      maxi := from;
      var utf8width := 0;
      while maxi < |data| && utf8width < width
        invariant from <= maxi <= |data| && utf8width <= width
        invariant FitEnd(data, from, width) == FitEnd(data, maxi, width - utf8width)
        decreases |data| - maxi
      {
        var next, wide := DecodeChar(data, maxi);
        if wide {
          if utf8width + 2 > width {
            break;
          }
          utf8width := utf8width + 1;
        }
        utf8width := utf8width + 1;
        maxi := next;
      }
    }

    /** Finds the end of the first line of `data` from `from` on, and where the next line begins. */
    method CutLine(data: seq<Byte>, from: nat) returns (len: nat, next: nat)
      requires width >= 2 && from < |data| && Printable(data)
      ensures FirstLine(data, from, width) == Line(from, from + len, next)
    {
      WholeBeforeStart(data, from, |data|);
      ColumnsAtMostBytes(data, from, |data|);
      FitEndIsLongest(data, from, width, |data|);
      len, next := |data| - from, |data|;
      if len > width {
        var maxi := Fit(data, from);
        if maxi < |data| {
          var i := maxi;
          while i >= from && data[i] != SPACE
            invariant from - 1 <= i <= maxi
            invariant LastSpace(data, from, maxi) == if i >= from then LastSpace(data, from, i) else from - 1
          {
            i := i - 1;
          }
          if i >= from {
            len, next := i - from, i + 1;
          } else {
            len, next := maxi - from, maxi;
          }
        }
      }
    }

    /** Queues the first line of `data` from `from` on, and returns where the next one begins. */
    method ProcessLine(w: Writer, data: seq<Byte>, from: nat) returns (next: nat)
      requires Valid() && Printable(data) && from < |data|
      modifies Repr(), w
      ensures Valid() && from < next <= |data|
      ensures next == FirstLine(data, from, width).next
      ensures var full := |old(queue)| == SLOTS - 1;
              && queue == (if full then old(queue)[1..] else old(queue)) + [Text(data, FirstLine(data, from, width))]
              && wroteSomething == (old(wroteSomething) || full)
              && w.out == old(w.out) + if !full then [] else
                   (if old(wroteSomething) then Break(x) else []) + [Payload(old(queue)[0])]
    {
      var len;
      len, next := CutLine(data, from);
      assert data[from..][..len] == data[from..from + len];
      Output(w, data[from..], len);
    }

    /**
      Cuts a text into lines and queues them.  The oldest pieces are written one
      below the other: as many as it takes to make room, and at least one.
    */
    method Process(w: Writer, data: seq<Byte>)
      requires Valid() && Printable(data)
      modifies Repr(), w
      ensures Valid() && WrapsGreedily(data, 0, width, Wrap(data, 0, width))
      ensures var pieces := old(queue) + Wrap(data, 0, width);
              queue == pieces[Due(pieces)..] && w.out == old(w.out) + Block(pieces[..Due(pieces)], x)
    {
      wroteSomething := false;
      var from := 0;
      ghost var out, taken := w.out, [];
      ghost var done: seq<seq<Byte>> := [];
      while from < |data|
        invariant from <= |data| && Valid()
        invariant Wrapped(data, from, width, done)
        invariant Written(w.out, out, taken, queue, old(queue) + done, x)
        invariant |taken| > 0 ==> |queue| == SLOTS - 1
        invariant wroteSomething <==> taken != []
        decreases |data| - from
      {
        ghost var piece := Text(data, FirstLine(data, from, width));
        WrapStep(data, from, width, done);
        WrittenMore(w.out, out, taken, queue, old(queue) + done, x, piece);
        if |queue| == SLOTS - 1 {
          WrittenStep(w.out, out, taken, queue + [piece], old(queue) + done + [piece], x);
          taken := taken + [queue[0]];
        }
        from := ProcessLine(w, data, from);
        Associative(old(queue), done, [piece]);
        done := done + [piece];
      }
      assert done == Wrap(data, 0, width);
      if !wroteSomething {
        if queue != [] {
          WrittenStep(w.out, out, taken, queue, old(queue) + done, x);
          taken := taken + [queue[0]];
        }
        WriteOneLine(w);
      }
      PayloadsOfWritten(w.out, out, taken, queue, old(queue) + done, x);
      WrapIsGreedy(data, 0, width, done);
    }
  }

  /** What `Process` does with its pieces neither loses nor repeats nor overtakes any. */
  lemma NothingIsLost(out: seq<Chunk>, queue: seq<seq<Byte>>, more: seq<seq<Byte>>, x: int)
    ensures var pieces := queue + more;
            Payloads(out + Block(pieces[..Due(pieces)], x)) + pieces[Due(pieces)..] == Payloads(out) + queue + more
  {
    var pieces := queue + more;
    var n := Due(pieces);
    PayloadsOfWritten(out + Block(pieces[..n], x), out, pieces[..n], pieces[n..], pieces, x);
    Associative(Payloads(out), queue, more);
  }

  /** One more piece in the queue. */
  lemma WrittenMore(now: seq<Chunk>, out: seq<Chunk>, taken: seq<seq<Byte>>, queue: seq<seq<Byte>>,
                    pieces: seq<seq<Byte>>, x: int, piece: seq<Byte>)
    requires Written(now, out, taken, queue, pieces, x)
    ensures Written(now, out, taken, queue + [piece], pieces + [piece], x)
  {
    Associative(taken, queue, [piece]);
  }

  /** `done` are the pieces of `data` in front of `from`. */
  ghost predicate Wrapped(data: seq<Byte>, from: nat, width: nat, done: seq<seq<Byte>>) {
    from <= |data| && Printable(data) && width >= 2 && done + Wrap(data, from, width) == Wrap(data, 0, width)
  }

  lemma WrapStep(data: seq<Byte>, from: nat, width: nat, done: seq<seq<Byte>>)
    requires Wrapped(data, from, width, done) && from < |data|
    ensures var line := FirstLine(data, from, width);
            Wrapped(data, line.next, width, done + [Text(data, line)])
  {
    var line := FirstLine(data, from, width);
    Associative(done, [Text(data, line)], Wrap(data, line.next, width));
  }

  /** What a wrapper queues for one text after the other. */
  function WrapAll(texts: seq<seq<Byte>>, width: nat): (pieces: seq<seq<Byte>>)
    requires width >= 2 && forall t :: t in texts ==> Printable(t)
  {
    if texts == [] then [] else
      var n := |texts| - 1;
      WrapAll(texts[..n], width) + Wrap(texts[n], 0, width)
  }

  /** A whole column: text after text is processed, then the wrapper is flushed.  No piece is lost or repeated. */
  method WriteColumn(wrapper: LineWrapper, w: Writer, texts: seq<seq<Byte>>)
    requires wrapper.Valid() && w !in wrapper.Repr() && forall t :: t in texts ==> Printable(t)
    modifies wrapper.Repr(), w
    ensures wrapper.Valid() && wrapper.queue == []
    ensures Payloads(w.out) == old(Payloads(w.out) + wrapper.queue) + WrapAll(texts, wrapper.width)
  {
    var i := 0;
    ghost var before := Payloads(w.out) + wrapper.queue;
    while i < |texts|
      invariant 0 <= i <= |texts| && wrapper.Valid()
      invariant Payloads(w.out) + wrapper.queue == before + WrapAll(texts[..i], wrapper.width)
    {
      ghost var done, more := WrapAll(texts[..i], wrapper.width), Wrap(texts[i], 0, wrapper.width);
      NothingIsLost(w.out, wrapper.queue, more, wrapper.x);
      wrapper.Process(w, texts[i]);
      assert texts[..i + 1][..i] == texts[..i];
      assert WrapAll(texts[..i + 1], wrapper.width) == done + more;
      Associative(before, done, more);
      i := i + 1;
    }
    assert texts[..i] == texts;
    wrapper.Flush(w);
  }
}
