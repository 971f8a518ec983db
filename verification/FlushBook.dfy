/**
  * Which bytes of a response body the pipe has taken, byte by byte (lws_file_flush_hook in src/lws_lib.c). A flush
  * writes the whole body from its start, and the body is discarded only when all of it has been written.
  */
module FlushBook {
  import opened ByteStrings

  /**
    * All bytes ever put into the body; for each byte the pipe took, which of them it is; how many bytes were taken by
    * flushes that failed later; and whether a write succeeded after such a failure.
    */
  datatype Book = Book(added: Bytes, sent: seq<nat>, wasted: nat, resent: bool)

  /** How far the flush at work has come. */
  function Offset(body: Bytes, out: Bytes): int {
    if out == [] then 0 else |body| - |out|
  }

  /** Bytes were sent each once and in order. */
  predicate InOrder(sent: seq<nat>) {
    forall i :: 0 <= i < |sent| ==> sent[i] == i
  }

  /** Some byte was sent again. */
  ghost predicate Repeats(sent: seq<nat>) {
    exists i :: 0 <= i < |sent| && sent[i] < i
  }

  /** The pipe took the bytes listed. */
  ghost predicate Taken(b: Book, written: Bytes) {
    && |b.sent| == |written|
    && forall i :: 0 <= i < |written| ==> b.sent[i] < |b.added| && written[i] == b.added[b.sent[i]]
  }

  /** The body is the end of what was added, and what is left to write is the end of the body. */
  ghost predicate Pending(b: Book, body: Bytes, out: Bytes) {
    && |body| <= |b.added| && body == b.added[|b.added| - |body|..]
    && |out| <= |body| && (out != [] ==> out == body[|body| - |out|..])
  }

  /** The books balance. */
  ghost predicate Booked(b: Book, body: Bytes, out: Bytes, written: Bytes) {
    && Taken(b, written) && Pending(b, body, out)
    && |written| + |body| == |b.added| + b.wasted + Offset(body, out)
    && (if b.resent then b.wasted > 0 && Repeats(b.sent)
        else InOrder(b.sent) && (Offset(body, out) > 0 ==> b.wasted == 0))
  }

  function Added(b: Book, data: Bytes): Book {
    b.(added := b.added + data)
  }

  /** The flush at work gets n more bytes into the pipe. */
  function Sent(b: Book, body: Bytes, out: Bytes, n: nat): (b': Book)
    requires |out| <= |body| <= |b.added|
  {
    var from := |b.added| - |body| + Offset(body, out);
    b.(sent := b.sent + seq(n, i requires 0 <= i < n => from + i), resent := b.resent || b.wasted > 0)
  }

  function WastedBy(b: Book, body: Bytes, out: Bytes): Book
    requires |out| <= |body|
  {
    b.(wasted := b.wasted + Offset(body, out))
  }

  lemma BookSizes(b: Book, body: Bytes, out: Bytes, written: Bytes)
    requires Booked(b, body, out, written)
    ensures |out| <= |body| <= |b.added|
  {
  }

  lemma BookStart()
    ensures Booked(Book([], [], 0, false), [], [], [])
  {
  }

  /** Data is added to the body and, unless that is refused, the body is about to be written. */
  lemma BookFlush(b: Book, body: Bytes, written: Bytes, data: Bytes, ok: bool)
    requires Booked(b, body, [], written)
    ensures Booked(Added(b, data), body + data, if ok then body + data else [], written)
  {
    var b' := Added(b, data);
    var start := |b.added| - |body|;
    assert body + data == b'.added[start..];
    assert (body + data)[0..] == body + data;
  }

  lemma BookTaken(b: Book, body: Bytes, out: Bytes, written: Bytes, n: nat)
    requires Taken(b, written) && Pending(b, body, out) && 0 < n <= |out|
    ensures Taken(Sent(b, body, out, n), written + out[..n])
  {
    var b', written' := Sent(b, body, out, n), written + out[..n];
    var from := |b.added| - |out|;
    assert out == b.added[from..];
    forall i | |written| <= i < |written'| ensures b'.sent[i] < |b.added| && written'[i] == b.added[b'.sent[i]] {
      assert b'.sent[i] == from + (i - |written|);
    }
  }

  lemma BookPending(b: Book, body: Bytes, out: Bytes, n: nat)
    requires Pending(b, body, out) && 0 < n <= |out|
    ensures Pending(Sent(b, body, out, n), if n == |out| then [] else body, out[n..])
  {
    var k := |body| - |out|;
    assert out[n..] == body[k..][n..] == body[k + n..];
    assert b.added[|b.added|..] == [];
  }

  lemma BookOrder(b: Book, body: Bytes, out: Bytes, n: nat)
    requires Pending(b, body, out) && 0 < n <= |out|
    requires |b.sent| + |body| == |b.added| + b.wasted + Offset(body, out)
    requires if b.resent then b.wasted > 0 && Repeats(b.sent) else InOrder(b.sent)
    ensures var b' := Sent(b, body, out, n);
            if b'.resent then b'.wasted > 0 && Repeats(b'.sent) else InOrder(b'.sent) && b'.wasted == 0
  {
    var b', k := Sent(b, body, out, n), |b.sent|;
    if b.resent {
      var i :| 0 <= i < k && b.sent[i] < i;
      assert b'.sent[i] < i;
    } else if b.wasted > 0 {
      assert b'.sent[k] < k;
    }
  }

  /** Some of the data is written; the body is discarded with the last byte of it. */
  lemma BookWrite(b: Book, body: Bytes, out: Bytes, written: Bytes, n: nat)
    requires Booked(b, body, out, written) && 0 < n <= |out|
    ensures Booked(Sent(b, body, out, n), if n == |out| then [] else body, out[n..], written + out[..n])
  {
    BookTaken(b, body, out, written, n);
    BookPending(b, body, out, n);
    BookOrder(b, body, out, n);
    hide Taken, Pending, InOrder, Repeats;
    assert |out[n..]| == |out| - n && |written + out[..n]| == |written| + n;
  }

  lemma BookFail(b: Book, body: Bytes, out: Bytes, written: Bytes)
    requires Booked(b, body, out, written)
    ensures Booked(WastedBy(b, body, out), body, [], written)
  {
  }

  /**
    * What the pipe took is the body, each byte once and in order, exactly if no write succeeded after a flush had
    * failed part-way; then it is the beginning of what the script added.
    */
  lemma OnceInOrder(b: Book, body: Bytes, out: Bytes, written: Bytes)
    requires Booked(b, body, out, written)
    ensures InOrder(b.sent) <==> !b.resent
    ensures Repeats(b.sent) <==> b.resent
    ensures !b.resent ==> written <= b.added
  {
    if !b.resent && written != [] {
      assert b.sent[|written| - 1] == |written| - 1;
      assert written == b.added[..|written|];
    }
  }

  /** Once nothing is left to flush, the pipe took exactly what was added if and only if no failed flush had written. */
  lemma ExactWhenEmpty(b: Book, written: Bytes)
    requires Booked(b, [], [], written)
    ensures |written| == |b.added| + b.wasted
    ensures written == b.added <==> b.wasted == 0
  {
    if b.wasted == 0 { OnceInOrder(b, [], [], written); }
  }

  /** While no failed flush wrote anything, what was written and what is still to be written make up what was added. */
  lemma NothingWasted(b: Book, body: Bytes, out: Bytes, written: Bytes)
    requires Booked(b, body, out, written) && b.wasted == 0
    ensures written + (if out == [] then body else out) == b.added
  {
    OnceInOrder(b, body, out, written);
    var rest := if out == [] then body else out;
    assert |written| + |rest| == |b.added|;
    assert rest == b.added[|written|..];
  }
}
