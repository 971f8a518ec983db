/** Response streaming: who ends the request, and what becomes of pipe, header and bytes (src/lws_module.c). */
module Streaming {
  import opened FlushBook

  type Bytes = ByteStrings.Bytes

  const NGX_OK := 0
  const NGX_ERROR := -1
  const OK_STATUS := 200
  const REQUEST_TIME_OUT := 408
  const INTERNAL_SERVER_ERROR := 500
  const READS_MAX: nat := 16
  const SSIZE_MAX: nat := 0x7FFF_FFFF_FFFF_FFFF

  predicate IsError(rc: int) {
    rc == NGX_ERROR || rc > NGX_OK
  }

  /** Outcome of handing data to the output filters; `blocked` says that the client cannot take more for now. */
  datatype Output = Failed | Passed(blocked: bool)

  /**
    * Outcome of sending the response header: whether the response is known to be header-only, whether setting the
    * header up succeeds, the filters' code, whether the filters make it header-only, and whether they mark it as sent.
    */
  datatype Header = Header(intended: bool, prepared: bool, code: int, only: bool, sent: bool) {
    predicate Error() {
      code == NGX_ERROR || code > NGX_OK
    }

    predicate Good() {
      prepared && !Error() && !intended && !only
    }
  }

  /** What one pass of the read loop meets; at the end of the pipe, the code of sending the final marker. */
  datatype Read = Read(buffer: bool, error: bool, size: nat, header: Header, output: Output, markerCode: int)

  /** How many bytes a read gets: what it asks for, as far as the pipe has it, and at least one. */
  function ReadSize(size: nat, available: nat): (k: nat)
    ensures available > 0 ==> 1 <= k <= available && (1 <= size <= available ==> k == size)
    ensures size > available ==> k == available
    ensures size <= 1 <= available ==> k == 1
  {
    if size > available then available else if size < 1 then 1 else size
  }

  /** Nothing goes wrong in a pass. */
  predicate Benign(pass: Read) {
    pass.buffer && !pass.error && pass.output.Passed? && pass.header.Good()
  }

  /** What arming the client's write event meets. */
  datatype Wait = Wait(paused: bool, ready: bool, delayed: bool, armed: bool) {
    predicate Works() {
      paused && armed
    }
  }

  /** What has gone out of a response: its header, whether it has none but that, and a body. */
  datatype Outgoing = Outgoing(sent: bool, only: bool, calls: nat, unmarked: bool, content: Content)

  /** What the flush of the response body meets before the write loop. */
  datatype Flushing = Flushing(told: bool, synced: bool)

  /** A body handed to the output filters at once: the buffered one of the script, or that of an error response. */
  datatype Content = NoContent | Script(bytes: Bytes) | JsonError | HtmlError

  /** What an error response meets: its kind, memory for diagnostic, buffers and header, and the two filter calls. */
  datatype ErrorResponse = ErrorResponse(headerOnly: bool, html: bool, diagnostic: bool, escaped: bool, buffers: bool,
                                         space: bool, listed: bool, header: Header, bodyCode: int)

  /** An internal redirect that the script asked for, with the code of carrying it out. */
  datatype Redirect = None | ToUri(code: int) | ToNamed(code: int)

  /** What the response of a request that did not stream meets. */
  datatype Plain = Plain(error: ErrorResponse, synced: bool, header: Header, buffer: bool, bodyCode: int)

  datatype Event =
    | SetStatus(status: int)
    | SetRedirect(to: Redirect)
    | Append(data: Bytes)
    | Flush(flushing: Flushing)
    | WriteSome(n: nat)
    | WriteFails
    | ThreadEnds(result: int)
    | ReadReady(rearmed: bool, passes: nat -> Read, wait: Wait)
    | ReadPass(pass: Read, rearmed: bool, wait: Wait, limit: bool)
    | WriteReady(timedout: bool, delayed: bool, output: Output, rearmed: bool, wait: Wait)
    | TaskDone(inspected: bool, plain: Plain)

  /** Events of the Lua thread, as against those of NGINX's event loop. */
  predicate OfScript(e: Event) {
    e.SetStatus? || e.SetRedirect? || e.Append? || e.Flush? || e.WriteSome? || e.WriteFails? || e.ThreadEnds?
  }

  /** A handler event and its outcome, for a client that takes whatever it is offered. */
  datatype Willing = Willing(rearmed: bool, passes: nat -> Read, flushes: bool, wait: Wait)

  ghost predicate TakesAll(w: Willing) {
    forall i :: w.passes(i).output != Passed(true)
  }

  class Request {
    const main: bool
    const streaming: bool
    var conn: bool           // streaming connection open
    var readEnd: bool        // streaming_pipe[0] open
    var writeEnd: bool       // streaming_pipe[1] open
    var streamingRc: int
    var status: int          // the status that the script has set
    var redirect: Redirect
    var sealed: bool         // the script may not change status, header and redirect any more
    var headerSent: bool
    var headerOnly: bool
    var blocked: bool        // the request's write handler is the streaming one
    var readArmed: bool
    var writeArmed: bool
    var pipe: Bytes
    var body: Bytes          // what the response body stream holds
    var out: Bytes           // what the flush at work has not written yet
    var threadEnded: bool
    var result: int
    var done: bool           // the finalization handler has run
    ghost var written: Bytes     // everything the pipe took
    ghost var delivered: Bytes   // everything handed to the output filters
    ghost var book: Book         // which bytes of the body the pipe took
    ghost var readCloses: nat
    ghost var writeCloses: nat
    ghost var headerCalls: nat
    ghost var unmarked: bool     // some header call reported no error, yet left the header unmarked as sent
    ghost var finalized: nat
    ghost var finalRc: int       // what the request was finalized with
    ghost var headerStatus: int  // the status in the last header call
    ghost var answered: bool     // the finalization handler has given a response of its own
    ghost var content: Content   // the body of that response
    ghost var earlyEnd: bool     // the pipe ended before the header was sent
    ghost var lastMarker: bool   // the stream handler ended the body with it or, in a subrequest, completed the body

    /** An end of the pipe has been closed once if it is closed, and not at all if it is open. */
    ghost predicate Closes()
      reads this`conn, this`readEnd, this`writeEnd, this`readCloses, this`writeCloses
    {
      && (conn ==> readEnd)
      && (if streaming then readCloses == (if readEnd then 0 else 1) && writeCloses == if writeEnd then 0 else 1
          else !readEnd && !writeEnd && readCloses == writeCloses == 0)
    }

    ghost predicate Descriptors()
      reads this`conn, this`readEnd, this`writeEnd, this`readCloses, this`writeCloses
    {
      Closes() && conn == readEnd
    }

    /** While streaming is possible no byte is lost; after that the client has seen a prefix. */
    ghost predicate Data()
      reads this`conn, this`written, this`delivered, this`pipe, this`out, this`threadEnded, this`lastMarker
    {
      Prefix() && (conn ==> Whole())
    }

    ghost predicate Whole()
      reads this`written, this`delivered, this`pipe
    {
      written == delivered + pipe
    }

    ghost predicate Prefix()
      reads this`written, this`delivered, this`out, this`threadEnded, this`lastMarker
    {
      delivered <= written && (threadEnded ==> out == []) && (lastMarker ==> delivered == written)
    }

    /** Which bytes of the body have been written is on the books. */
    ghost predicate Books()
      reads this`book, this`body, this`out, this`written
    {
      Booked(book, body, out, written)
    }

    /** Exactly one of the two ends the request: the finalization handler, or the stream handler after it. */
    ghost predicate Ending()
      reads this`done, this`threadEnded, this`writeEnd, this`finalized, this`conn
    {
      && (done ==> threadEnded && !writeEnd)
      && (!done ==> finalized == 0 && writeEnd == streaming)
      && (done ==> finalized == if conn then 0 else 1)
    }

    /** Streaming broke off: with an error code, or because the response is header-only. */
    predicate Aborted()
      reads this`streamingRc, this`headerOnly
    {
      IsError(streamingRc) || headerOnly
    }

    /** As long as every header call without an error marks the header as sent, there is at most one such call. */
    ghost predicate OneHeader()
      reads this`headerCalls, this`headerSent, this`streamingRc, this`conn, this`done, this`pipe, this`blocked,
            this`headerOnly
    {
      && headerCalls <= 1 && (headerSent ==> headerCalls == 1)
      && (!done && headerCalls == 1 ==> headerSent || streamingRc != NGX_OK)
      && (!done && headerOnly && streamingRc == NGX_OK ==> headerSent)
      && (conn && headerCalls == 1 ==> headerSent)
      // pending data commits the response
      && (conn && done && !headerSent ==> pipe != [])
      && (blocked ==> headerSent)
    }

    ghost predicate Phases()
      reads this`conn, this`streamingRc, this`headerOnly, this`done, this`headerSent, this`headerCalls, this`pipe,
            this`blocked, this`writeArmed, this`readArmed, this`lastMarker, this`finalized, this`unmarked,
            this`earlyEnd, this`answered, this`finalRc
    {
      && (finalized == 1 && !answered && !lastMarker && !earlyEnd ==> finalRc == streamingRc)
      && (conn ==> streamingRc == NGX_OK && !headerOnly)
      && (streaming && !conn && !done ==> Aborted())
      && (!streaming && !done ==> !headerSent && !headerOnly && streamingRc == NGX_OK && headerCalls == 0)
      && (!unmarked ==> OneHeader() && !earlyEnd)
      && (conn && blocked ==> writeArmed && !readArmed) && (conn && !blocked ==> readArmed)
      && (lastMarker ==> finalized == 1)
    }

    /** Once a flush has begun nothing that the header depends on changes, and the response is no redirect. */
    ghost predicate Sealing()
      reads this`sealed, this`redirect, this`status, this`written, this`out, this`headerCalls, this`answered,
            this`headerStatus, this`headerSent, this`delivered
    {
      && (sealed ==> redirect.None?) && (written != [] || out != [] ==> sealed && streaming)
      && (headerCalls > 0 && !answered ==> headerStatus == status && sealed)
      && (delivered != [] || headerSent ==> headerCalls > 0)
    }

    /** A buffered body is what the script wrote, as long as every header call marks the header as sent. */
    ghost predicate Contents()
      reads this`answered, this`content, this`done, this`conn, this`body, this`book, this`unmarked
    {
      && (answered ==> done && !conn) && (content != NoContent ==> answered)
      && (content.Script? ==> content.bytes == body && (!unmarked ==> body == book.added))
    }

    ghost predicate Inv()
      reads this
    {
      Descriptors() && Data() && Ending() && Phases() && Books() && Sealing() && Contents()
    }

    constructor (main: bool, streaming: bool)
      ensures Inv() && !done && finalized == 0 && this.streaming == streaming && this.main == main
      ensures written == delivered == pipe == body == out == [] && book == Book([], [], 0, false)
      ensures conn == writeEnd == streaming && !blocked && !headerSent && !threadEnded && !unmarked
      ensures status == 200 && redirect.None? && !sealed && content == NoContent
    {
      hide Booked;
      this.main, this.streaming := main, streaming;
      conn, readEnd, writeEnd, readArmed := streaming, streaming, streaming, streaming;
      streamingRc, headerSent, headerOnly, blocked, writeArmed := NGX_OK, false, false, false, false;
      pipe, body, out, threadEnded, result, done := [], [], [], false, 0, false;
      written, delivered, book, readCloses, writeCloses := [], [], Book([], [], 0, false), 0, 0;
      headerCalls, unmarked, finalized, finalRc := 0, false, 0, NGX_OK;
      earlyEnd, lastMarker, status, redirect, sealed := false, false, OK_STATUS, None, false;
      headerStatus, answered, content := 0, false, NoContent;
      new;
      BookStart();
    }

    /** A request whose streaming setup failed after the pipe was made. */
    constructor Unfinished(main: bool)
      ensures Closes() && streaming && readEnd && writeEnd && !conn
    {
      this.main, this.streaming := main, true;
      conn, readEnd, writeEnd, readArmed := false, true, true, false;
      streamingRc, headerSent, headerOnly, blocked, writeArmed := NGX_OK, false, false, false, false;
      pipe, body, out, threadEnded, result, done := [], [], [], false, 0, false;
      written, delivered, book, readCloses, writeCloses := [], [], Book([], [], 0, false), 0, 0;
      headerCalls, unmarked, finalized, finalRc := 0, false, 0, NGX_OK;
      earlyEnd, lastMarker, status, redirect, sealed := false, false, OK_STATUS, None, false;
      headerStatus, answered, content := 0, false, NoContent;
    }

    ghost method Finalize(rc: int)
      modifies this`finalized, this`finalRc
      ensures finalized == old(finalized) + 1 && finalRc == rc
    {
      finalized := finalized + 1;
      finalRc := rc;
    }

    method CloseRead()
      modifies this`conn, this`readEnd, this`readCloses, this`readArmed
      ensures !conn && !readEnd && !readArmed && readCloses == old(readCloses) + 1
    {
      conn, readEnd, readArmed := false, false, false;
      readCloses := readCloses + 1;
    }

    /** A call of ngx_http_send_header; whether it marks the header as sent is up to NGINX, even without an error. */
    method SendHeader(h: Header, status: int) returns (rc: int)
      modifies this`headerSent, this`headerOnly, this`headerCalls, this`headerStatus, this`unmarked
      ensures rc == h.code && headerCalls == old(headerCalls) + 1 && headerStatus == status
      ensures headerSent == (old(headerSent) || h.sent) && headerOnly == (old(headerOnly) || h.only)
      ensures unmarked == (old(unmarked) || (!h.Error() && !headerSent))
    {
      headerCalls := headerCalls + 1;
      headerStatus := status;
      headerSent := headerSent || h.sent;
      headerOnly := headerOnly || h.only;
      unmarked := unmarked || (!h.Error() && !headerSent);
      rc := h.code;
    }

    // ---- the Lua thread ----

    /** The script sets the status; this is refused once the response is sealed. */
    method ChangeStatus(status: int) returns (ok: bool)
      requires Inv() && !threadEnded
      modifies this`status
      ensures Inv() && ok == !sealed && this.status == if ok then status else old(this.status)
    {
      hide Descriptors, Phases, Data, Books, Ending;
      ok := !sealed;
      if ok {
        this.status := status;
      }
    }

    /** The script redirects the request; this is refused once the response is sealed. */
    method ChangeRedirect(to: Redirect) returns (ok: bool)
      requires Inv() && !threadEnded
      modifies this`redirect
      ensures Inv() && ok == !sealed && redirect == if ok then to else old(redirect)
    {
      hide Descriptors, Phases, Data, Books, Ending;
      ok := !sealed;
      if ok {
        redirect := to;
      }
    }

    /** The script adds data to the response body. */
    method Write(data: Bytes)
      requires Inv() && !threadEnded && out == []
      modifies this`body, this`book
      ensures Inv() && body == old(body) + data && book == Added(old(book), data)
    {
      hide Descriptors, Phases, Whole, Booked;
      BookFlush(book, body, written, data, false);
      book := Added(book, data);
      body := body + data;
    }

    /**
      * The script flushes the response body. This is refused after a redirect, without a pipe, or if the body cannot be
      * measured, written out, or is too large; it seals the response. What the body still holds is flushed again.
      */
    method StartFlush(f: Flushing) returns (ok: bool)
      requires Inv() && !threadEnded && out == []
      modifies this`out, this`sealed
      ensures Inv()
      ensures sealed == (old(sealed) || (redirect.None? && writeEnd && f.told && |body| <= SSIZE_MAX))
      ensures ok <==>
        redirect.None? && writeEnd && f.told && |body| <= 0x7FFF_FFFF_FFFF_FFFF && (body != [] ==> f.synced)
      ensures out == if ok then body else []
    {
      hide Descriptors, Phases, Whole, Booked;
      BookFlush(book, body, written, [], true);
      assert body + [] == body && book.added + [] == book.added;
      if !redirect.None? {
        return false;
      }
      if !writeEnd {
        return false;
      }
      if !f.told || |body| > SSIZE_MAX {
        return false;
      }
      sealed := true;
      if |body| > 0 {
        if !f.synced {
          return false;
        }
        out := body;
      }
      ok := true;
    }

    /** One write to the pipe takes some of the data; once all is written the body stream starts afresh. */
    method WriteSome(n: nat)
      requires Inv() && !threadEnded && conn && 0 < n <= |out|
      modifies this`pipe, this`out, this`written, this`body, this`book
      ensures Inv() && pipe == old(pipe) + old(out)[..n] && out == old(out)[n..]
      ensures |old(out)| <= |old(body)| <= |old(book).added| && book == Sent(old(book), old(body), old(out), n)
      ensures written == old(written) + old(out)[..n] && body == if out == [] then [] else old(body)
    {
      hide Closes, Descriptors, Booked;
      BookSizes(book, body, out, written);
      BookWrite(book, body, out, written, n);
      book := Sent(book, body, out, n);
      pipe := pipe + out[..n];
      written := written + out[..n];
      out := out[n..];
      if out == [] {
        body := [];
      }
    }

    /** A failed write raises a Lua error, which the script may catch; the body stream keeps what was to be flushed. */
    method WriteFails()
      requires Inv() && !threadEnded && out != []
      modifies this`out, this`book
      ensures Inv() && out == []
      ensures |old(out)| <= |body| && book == WastedBy(old(book), body, old(out))
    {
      hide Descriptors, Phases, Ending, Whole, Booked;
      BookSizes(book, body, out, written);
      BookFail(book, body, out, written);
      book := WastedBy(book, body, out);
      out := [];
    }

    method ThreadEnds(rc: int)
      requires Inv() && !threadEnded && out == []
      modifies this`threadEnded, this`result
      ensures Inv() && threadEnded && result == rc
    {
      hide Descriptors, Phases, Whole, Books;
      threadEnded := true;
      result := rc;
    }

    // ---- the event handlers ----

    /** Abort streaming; end the request if the finalization handler has left that to streaming. */
    method Abort()
      requires StreamInv() && conn && Aborted()
      modifies this`conn, this`readEnd, this`readCloses, this`readArmed, this`blocked, this`writeArmed,
               this`finalized, this`finalRc
      ensures Inv() && !conn && !blocked
      ensures finalized == old(finalized) + (if done then 1 else 0) && (done ==> finalRc == streamingRc)
      ensures writeArmed == (old(writeArmed) && !old(blocked))
    {
      hide Prefix, Whole, Books, Sealing;
      CloseRead();
      if blocked {
        writeArmed := false;
        blocked := false;
      }
      if !writeEnd {
        Finalize(streamingRc);
      }
    }

    method AbortWith(rc: int)
      requires StreamInv() && conn && IsError(rc)
      modifies this`streamingRc, this`conn, this`readEnd, this`readCloses, this`readArmed, this`blocked,
               this`writeArmed, this`finalized, this`finalRc
      ensures Inv() && !conn && !blocked && streamingRc == rc && (done ==> finalRc == rc)
      ensures writeArmed == (old(writeArmed) && !old(blocked))
    {
      hide Books, Sealing, Contents;
      streamingRc := rc;
      Abort();
    }

    /** OneHeader with the events of the streaming connection in flux. */
    ghost predicate HeaderInFlux()
      reads this`headerCalls, this`headerSent, this`streamingRc, this`conn, this`done, this`pipe, this`blocked,
            this`headerOnly, this`earlyEnd, this`unmarked
    {
      !unmarked ==>
        && headerCalls <= 1 && (headerSent ==> headerCalls == 1) && !earlyEnd
        && (headerCalls == 1 ==> headerSent || streamingRc != NGX_OK)
        && (headerOnly && streamingRc == NGX_OK ==> headerSent)
        && (done && conn && !headerSent && streamingRc == NGX_OK ==> pipe != [])
        && (blocked ==> headerSent)
    }

    /** The invariant with the events of the streaming connection in flux. */
    ghost predicate StreamInv()
      reads this`conn, this`readEnd, this`writeEnd, this`readCloses, this`writeCloses, this`written, this`delivered,
            this`book, this`body, this`out, this`threadEnded, this`lastMarker, this`done, this`finalized,
            this`unmarked, this`headerCalls, this`headerSent, this`streamingRc, this`headerOnly, this`pipe,
            this`blocked, this`earlyEnd, this`sealed, this`redirect, this`status, this`headerStatus, this`answered,
            this`content
    {
      && Descriptors() && Prefix() && Books() && Ending() && HeaderInFlux() && streaming && !lastMarker
      && Sealing() && !answered && content == NoContent
    }

    /** Pause reading until the client can take more. */
    method WaitForClient(wait: Wait)
      requires StreamInv() && conn && Whole() && streamingRc == NGX_OK && !headerOnly && (!unmarked ==> headerSent)
      modifies this`streamingRc, this`conn, this`readEnd, this`readCloses, this`readArmed, this`blocked,
               this`writeArmed, this`finalized, this`finalRc
      ensures Inv() && (conn ==> blocked) && (!conn ==> streamingRc == NGX_ERROR)
      ensures !conn && old(blocked) ==> !writeArmed
      ensures conn <==> (old(readArmed) ==> wait.paused) && ((wait.ready && wait.delayed) || wait.armed)
      ensures conn ==> !readArmed
    {
      hide Descriptors, Prefix, Whole, Books, Sealing;
      if readArmed && !wait.paused {
        AbortWith(NGX_ERROR);
        return;
      }
      readArmed := false;
      blocked := true;
      writeArmed := true;
      if wait.ready && wait.delayed {
        return;  // the write event is armed already
      }
      if !wait.armed {
        AbortWith(NGX_ERROR);
      }
    }

    /** The read loop may go on. */
    ghost predicate Reading()
      reads this
    {
      StreamInv() && conn && Whole() && !blocked && readArmed && streamingRc == NGX_OK && !headerOnly
    }

    lemma StillStreaming()
      requires Inv() && conn
      ensures StreamInv() && Whole() && streamingRc == NGX_OK && !headerOnly && (!unmarked && blocked ==> headerSent)
      ensures finalized == 0 && if blocked then writeArmed && !readArmed else readArmed
    {
    }

    /** A header call with the status of the script, which no longer changes, before the first bytes. */
    method CommitHeader(h: Header) returns (rc: int)
      requires Sealing() && (pipe != [] && Whole()) && !answered
      modifies this`headerSent, this`headerOnly, this`headerCalls, this`headerStatus, this`unmarked
      ensures Sealing() && rc == h.code && headerCalls == old(headerCalls) + 1 && headerStatus == status
      ensures headerSent == (old(headerSent) || h.sent) && headerOnly == (old(headerOnly) || h.only)
      ensures unmarked == (old(unmarked) || (!h.Error() && !headerSent))
    {
      rc := SendHeader(h, status);
    }

    lemma HeaderCounted()
      requires Reading() && headerSent
      ensures headerCalls > 0
    {
    }

    lemma StopReading()
      requires Reading()
      ensures Inv()
    {
    }

    /** The client's write event: flush what is pending, then resume reading or go on waiting. */
    method WriteHandler(timedout: bool, delayed: bool, output: Output, rearmed: bool, wait: Wait)
      requires Inv()
      modifies this`streamingRc, this`conn, this`readEnd, this`readCloses, this`readArmed, this`blocked,
               this`writeArmed, this`finalized, this`finalRc
      ensures Inv() && (old(finalized) > 0 ==> finalized == old(finalized))
      ensures !old(conn) ==> !conn
      ensures old(conn && blocked) && timedout ==> !conn && streamingRc == 408
      ensures old(conn && blocked) && !timedout ==>
        && (conn <==> if delayed || output == Passed(true)
                      then (old(readArmed) ==> wait.paused) && ((wait.ready && wait.delayed) || wait.armed)
                      else output.Passed? && rearmed)
        && (!conn ==> streamingRc == NGX_ERROR) && (conn ==> (blocked <==> delayed || output == Passed(true)))
      ensures old(conn && blocked) && !blocked ==> !writeArmed
      ensures !old(conn && blocked) ==> conn == old(conn) && blocked == old(blocked) && streamingRc == old(streamingRc)
    {
      hide Inv, Descriptors, Prefix, Ending, Whole, Books, Sealing, Contents;
      if !conn || !blocked {
        return;
      }
      StillStreaming();
      if timedout {
        AbortWith(REQUEST_TIME_OUT);
        return;
      }
      if !delayed {
        if output.Failed? {
          AbortWith(NGX_ERROR);
          return;
        }
        if !output.blocked {
          writeArmed := false;
          blocked := false;
          readArmed := true;
          if !rearmed {
            AbortWith(NGX_ERROR);
          } else {
            StopReading();
          }
          return;
        }
      }
      WaitForClient(wait);
    }

    /** Some bytes leave the pipe, and are delivered if the filters take them. */
    twostate predicate Forwarded(k: nat, taken: bool)
      reads this`pipe, this`delivered
    {
      && k <= |old(pipe)| && pipe == old(pipe)[k..]
      && delivered == if taken then old(delivered) + old(pipe)[..k] else old(delivered)
    }

    /** In this pass something is read and there is a header before it. */
    predicate Forwards(pass: Read)
      reads this`pipe, this`headerSent
    {
      pass.buffer && !pass.error && pipe != [] && (headerSent || pass.header.Good())
    }

    /** In this pass the header fails to go out. */
    predicate HeaderFails(pass: Read)
      reads this`pipe, this`headerSent
    {
      pass.buffer && !pass.error && pipe != [] && !headerSent && !pass.header.Good()
    }

    /** The pipe is readable: pass data on, up to a limit, until it is empty, the client blocks, or it ends. */
    method StreamHandler(rearmed: bool, passes: nat -> Read, wait: Wait)
      requires Inv() && conn && !blocked
      modifies this`streamingRc, this`conn, this`readEnd, this`readCloses, this`readArmed, this`blocked,
               this`writeArmed, this`finalized, this`finalRc, this`headerSent, this`headerOnly, this`headerCalls,
               this`headerStatus, this`unmarked, this`pipe, this`delivered, this`earlyEnd, this`lastMarker
      ensures Inv() && old(delivered) <= delivered && |pipe| <= |old(pipe)|
      // what is read is passed on, and if nothing stands in the way that is all there is or the limit of 16 passes
      ensures conn ==> delivered + pipe == old(delivered) + old(pipe)
      ensures old(Forwards(passes(0))) && passes(0).output.Passed? ==> |delivered| > |old(delivered)|
      ensures (forall i :: Benign(passes(i)) && passes(i).output == Passed(false)) ==>
        pipe == [] || |old(pipe)| - |pipe| >= 16
      ensures (forall i :: passes(i).size <= 1) && |old(pipe)| >= 16 ==> |old(pipe)| - |pipe| <= 16
      // once the thread has ended each event makes progress: the request ends, the client is waited for, or bytes move
      ensures done ==> !conn || blocked || |pipe| < |old(pipe)|
      ensures (forall i :: passes(i).output != Passed(true)) ==> !blocked
      ensures lastMarker ==> done && pipe == []
      // streaming goes on unless something goes wrong or everything was read
      ensures (forall i :: Benign(passes(i))) && rearmed && wait.Works() ==> conn || lastMarker || earlyEnd
    {
      hide Descriptors, Prefix, Ending, OneHeader, Books, Sealing, Contents;
      var n := 0;
      StillStreaming();
      while n < READS_MAX
        invariant 0 <= n <= READS_MAX && Reading()
        invariant |pipe| + n <= |old(pipe)| && old(delivered) <= delivered
        invariant (forall i :: passes(i).size <= 1) ==> |old(pipe)| == |pipe| + n
        invariant delivered + pipe == old(delivered) + old(pipe)
        invariant n == 0 ==> pipe == old(pipe) && headerSent == old(headerSent)
        invariant n > 0 ==> |delivered| > |old(delivered)| && (!unmarked ==> headerSent)
      {
        var again := Pass(passes(n), rearmed, wait);
        if !again {
          return;
        }
        n := n + 1;
      }
      if !rearmed {
        AbortWith(NGX_ERROR);
      } else {
        StopReading();
      }
    }

    /** One pass of the read loop. */
    method Pass(pass: Read, rearmed: bool, wait: Wait) returns (again: bool)
      requires Reading()
      modifies this`streamingRc, this`conn, this`readEnd, this`readCloses, this`readArmed, this`blocked,
               this`writeArmed, this`finalized, this`finalRc, this`headerSent, this`headerOnly, this`headerCalls,
               this`headerStatus, this`unmarked, this`pipe, this`delivered, this`earlyEnd, this`lastMarker
      ensures again ==> Reading() && (!unmarked ==> headerSent)
      ensures !again ==> Inv() && (done ==> !conn || blocked) && (lastMarker ==> done && pipe == [])
      // what becomes of the bytes
      ensures again <==> old(Forwards(pass)) && pass.output == Passed(false)
      ensures if old(Forwards(pass)) then Forwarded(ReadSize(pass.size, |old(pipe)|), pass.output.Passed?)
              else pipe == old(pipe) && delivered == old(delivered)
      // what becomes of the connection
      ensures !pass.buffer || pass.error ==> !conn && streamingRc == NGX_ERROR
      ensures old(HeaderFails(pass)) ==>
        !conn && streamingRc == if pass.header.prepared then pass.header.code else INTERNAL_SERVER_ERROR
      ensures old(Forwards(pass)) && pass.output.Failed? ==> !conn && streamingRc == NGX_ERROR
      ensures old(Forwards(pass)) && pass.output == Passed(true) ==>
        && (conn <==> wait.paused && ((wait.ready && wait.delayed) || wait.armed))
        && if conn then blocked else streamingRc == NGX_ERROR
      ensures pass.buffer && !pass.error && old(pipe) == [] && writeEnd ==>
        if rearmed then conn && !blocked else !conn && streamingRc == NGX_ERROR
      ensures pass.buffer && !pass.error && old(pipe) == [] && !writeEnd ==>
        !conn && lastMarker == old(headerSent) && earlyEnd == (old(earlyEnd) || !old(headerSent))
      ensures pass.output != Passed(true) ==> !blocked
      // what becomes of the header
      ensures again ==> headerSent == (old(headerSent) || pass.header.sent)
      ensures headerCalls > old(headerCalls) ==> headerStatus == status
    {
      hide Prefix, Closes, Descriptors, Data, OneHeader, HeaderInFlux, Phases, Books, Sealing, Contents;
      if !pass.buffer || pass.error {
        AbortWith(NGX_ERROR);
        return false;
      }
      if pipe == [] {
        if !writeEnd {
          EndOfFile(pass.markerCode);
        } else if !rearmed {
          AbortWith(NGX_ERROR);
        } else {
          StopReading();
        }
        return false;
      }
      if !headerSent {
        var ok := Commit(pass.header);
        if !ok {
          return false;
        }
      } else {
        HeaderCounted();
      }
      again := Send(pass.size, pass.output, wait);
    }

    /**
      * One pass by itself: the Lua thread may write to the pipe before the next one. After the last pass that is
      * allowed the event is rearmed.
      */
    method OnePass(pass: Read, rearmed: bool, wait: Wait, limit: bool)
      requires Inv() && conn && !blocked
      modifies this`streamingRc, this`conn, this`readEnd, this`readCloses, this`readArmed, this`blocked,
               this`writeArmed, this`finalized, this`finalRc, this`headerSent, this`headerOnly, this`headerCalls,
               this`headerStatus, this`unmarked, this`pipe, this`delivered, this`earlyEnd, this`lastMarker
      ensures Inv() && old(delivered) <= delivered && |pipe| <= |old(pipe)|
      ensures done ==> !conn || blocked || |pipe| < |old(pipe)|
      ensures if old(Forwards(pass)) then Forwarded(ReadSize(pass.size, |old(pipe)|), pass.output.Passed?)
              else pipe == old(pipe) && delivered == old(delivered)
    {
      hide Descriptors, Prefix, Books, Ending, OneHeader, Phases, Sealing, Contents;
      StillStreaming();
      var again := Pass(pass, rearmed, wait);
      if again {
        if limit && !rearmed {
          AbortWith(NGX_ERROR);
        } else {
          StopReading();
        }
      }
    }

    /** Hand what one read from the pipe yields to the output filters. */
    method Send(size: nat, output: Output, wait: Wait) returns (again: bool)
      requires Reading() && (!unmarked ==> headerSent) && pipe != [] && headerCalls > 0
      modifies this`streamingRc, this`conn, this`readEnd, this`readCloses, this`readArmed, this`blocked,
               this`writeArmed, this`finalized, this`finalRc, this`pipe, this`delivered
      ensures Forwarded(ReadSize(size, |old(pipe)|), output.Passed?)
      ensures (again <==> output == Passed(false)) && if again then Reading() else Inv() && (!conn || blocked)
      ensures output.Failed? ==> !conn && !blocked && streamingRc == NGX_ERROR
      ensures output == Passed(true) ==>
        && (conn <==> wait.paused && ((wait.ready && wait.delayed) || wait.armed))
        && (!conn ==> streamingRc == NGX_ERROR)
    {
      hide Descriptors, Ending, Books, Contents;
      var k := ReadSize(size, |pipe|);
      var data := pipe[..k];
      pipe := pipe[k..];
      if output.Failed? {
        AbortWith(NGX_ERROR);
        return false;
      }
      delivered := delivered + data;
      if output.blocked {
        WaitForClient(wait);
        return false;
      }
      again := true;
    }

    /** Everything has been read and the writer is gone: the response is complete, provided that it was begun. */
    method EndOfFile(markerCode: int)
      requires Reading() && pipe == [] && !writeEnd
      modifies this`conn, this`readEnd, this`readCloses, this`readArmed, this`finalized, this`finalRc, this`earlyEnd,
               this`lastMarker
      ensures Inv() && !conn && finalized == 1 && done
      ensures lastMarker == headerSent && earlyEnd == (old(earlyEnd) || !headerSent)
      ensures !headerSent ==> unmarked && finalRc == INTERNAL_SERVER_ERROR
      ensures headerSent ==> finalRc == if main then markerCode else NGX_OK
    {
      hide Books, Sealing;
      CloseRead();
      if !headerSent {
        earlyEnd := true;
        Finalize(INTERNAL_SERVER_ERROR);
        return;
      }
      lastMarker := true;
      Finalize(if main then markerCode else NGX_OK);
    }

    /** Send the header before the first bytes; false if that ended streaming. */
    method Commit(h: Header) returns (ok: bool)
      requires Reading() && !headerSent && pipe != []
      modifies this`streamingRc, this`conn, this`readEnd, this`readCloses, this`readArmed, this`blocked,
               this`writeArmed, this`finalized, this`finalRc, this`headerSent, this`headerOnly, this`headerCalls,
               this`headerStatus, this`unmarked
      ensures ok ==> Reading() && (!unmarked ==> headerSent)
      ensures !ok ==> Inv() && !conn && !blocked && streamingRc == if h.prepared then h.code else INTERNAL_SERVER_ERROR
      ensures ok <==> h.prepared && !(h.code == NGX_ERROR || h.code > NGX_OK) && !h.intended && !h.only
      ensures headerCalls == old(headerCalls) + (if h.prepared then 1 else 0)
      ensures if h.prepared then headerSent == h.sent && headerStatus == status else headerSent == old(headerSent)
    {
      hide Inv, OneHeader, Phases, Prefix, Whole, Closes, Descriptors, Ending, Books, Sealing, Contents;
      headerOnly := headerOnly || h.intended;
      if !h.prepared {
        streamingRc := INTERNAL_SERVER_ERROR;
        Abort();
        return false;
      }
      var rc := CommitHeader(h);
      if IsError(rc) || headerOnly {
        streamingRc := rc;
        Abort();
        return false;
      }
      ok := true;
    }

    /** The thread task has ended: close the write end, then end the request or leave that to streaming. */
    method FinalizationHandler(inspected: bool, plain: Plain)
      requires Inv() && threadEnded && !done
      modifies this`done, this`writeEnd, this`writeCloses, this`streamingRc, this`conn, this`readEnd, this`readCloses,
               this`readArmed, this`headerSent, this`headerOnly, this`headerCalls, this`headerStatus, this`unmarked,
               this`answered, this`content, this`finalized, this`finalRc
      ensures Inv() && done
      ensures finalized == if conn then 0 else 1
      ensures conn <==> old(conn) && (old(headerSent) || (inspected && old(pipe) != []))
      ensures conn ==> headerSent == old(headerSent)
      // streaming that has broken off, or cannot be inspected, ends with its own code
      ensures !conn && (old(headerSent) || old(streamingRc) != NGX_OK) ==>
        SoFar() == old(SoFar()) && finalRc == old(streamingRc)
      ensures old(conn) && !old(headerSent) && !inspected ==>
        SoFar() == old(SoFar()) && finalRc == NGX_ERROR
      // without streaming the response is given here
      ensures !old(headerSent) && old(streamingRc) == NGX_OK && (old(conn) ==> inspected && pipe == []) ==>
        Answers(plain, old(SoFar()))
    {
      hide Closes, Descriptors, Data, Books, Sealing, Answers;
      if !headerSent && !unmarked && streamingRc == NGX_OK && (conn ==> pipe == []) { Unflushed(); }
      EndWriting(inspected);
      if headerSent || conn || streamingRc != NGX_OK {
        if conn && streamingRc == NGX_OK && !headerOnly {
          return;  // the stream handler will finalize
        }
        assert Aborted();  // so the final marker is left to the stream handler
        Finalize(streamingRc);
        return;
      }
      Conclude(plain);
    }

    /** Streaming was not used and cannot be any more. */
    method Conclude(p: Plain)
      requires Descriptors() && Data() && Books() && Sealing() && !answered && content == NoContent && !lastMarker
      requires done && threadEnded && !writeEnd && !conn && !headerSent && streamingRc == NGX_OK && finalized == 0
      requires !unmarked ==> headerCalls == 0 && !earlyEnd && !blocked && body == book.added
      modifies this`headerSent, this`headerOnly, this`headerCalls, this`headerStatus, this`unmarked, this`answered,
               this`content, this`finalized, this`finalRc
      ensures Inv() && finalized == 1 && Answers(p, old(SoFar()))
    {
      hide Closes, Descriptors, Data, Books, Answers;
      Respond(p);
    }

    /** If streaming is not used the body is still all that the script wrote. */
    lemma Unflushed()
      requires Inv() && threadEnded && !done && !headerSent && !unmarked && streamingRc == NGX_OK
      requires conn ==> pipe == []
      ensures body == book.added
    {
    }

    /** Close the write end and find out whether streaming was used. */
    method EndWriting(inspected: bool)
      requires Inv() && threadEnded && !done
      modifies this`done, this`writeEnd, this`writeCloses, this`streamingRc, this`conn, this`readEnd, this`readCloses,
               this`readArmed
      ensures Descriptors() && Data() && done && !writeEnd && finalized == 0 && !lastMarker
      ensures conn ==> streamingRc == NGX_OK && !headerOnly && (headerSent || pipe != [])
      ensures conn ==> if blocked then writeArmed && !readArmed else readArmed
      ensures conn <==> old(conn) && (headerSent || (inspected && pipe != []))
      ensures streamingRc == if old(conn) && !headerSent && !inspected then NGX_ERROR else old(streamingRc)
      ensures !conn && (headerSent || streamingRc != NGX_OK) ==> Aborted()
      ensures !unmarked ==> headerCalls <= 1 && (headerSent ==> headerCalls == 1)
      ensures !unmarked ==> !earlyEnd && (blocked ==> headerSent)
      ensures !unmarked && !headerSent && streamingRc == NGX_OK ==> headerCalls == 0
    {
      hide Prefix, Whole, Books, Sealing, Contents;
      done := true;
      if writeEnd {
        writeEnd := false;
        writeCloses := writeCloses + 1;
      }
      if conn && !headerSent && streamingRc == NGX_OK {
        // streaming may still turn out to be unused
        if !inspected {
          streamingRc := NGX_ERROR;
        }
        if streamingRc != NGX_OK || pipe == [] {
          CloseRead();
        }
      }
    }

    // ---- responses that are not streamed ----

    /** What has gone out of a response so far. */
    ghost function SoFar(): Outgoing
      reads this`headerSent, this`headerOnly, this`headerCalls, this`unmarked, this`content
    {
      Outgoing(headerSent, headerOnly, headerCalls, unmarked, content)
    }

    /** A header goes out with this status; an error, or a header that says that there is no body, is the end. */
    ghost predicate OneHeaderCall(h: Header, intended: bool, status: int, before: Outgoing)
      reads this`headerSent, this`headerOnly, this`headerCalls, this`headerStatus, this`unmarked, this`content,
            this`finalRc
    {
      && headerCalls == before.calls + 1 && headerStatus == status && headerSent == (before.sent || h.sent)
      && headerOnly == (before.only || intended || h.only)
      && unmarked == (before.unmarked || (!h.Error() && !headerSent))
      && (h.Error() || headerOnly ==> finalRc == h.code && content == before.content)
    }

    /** An error response with this status: a header alone, a JSON body, or an HTML body. */
    ghost predicate ErrorAnswer(status: int, e: ErrorResponse, before: Outgoing)
      reads this`headerSent, this`headerOnly, this`headerCalls, this`headerStatus, this`unmarked, this`content,
            this`finalRc
    {
      var ready := if e.html then e.diagnostic && e.escaped && e.listed
                   else (e.diagnostic ==> e.escaped) && e.buffers && e.space && e.listed;
      if e.headerOnly then
        OneHeaderCall(e.header, true, status, before)
      else if !ready then
        SoFar() == before && finalRc == status
      else
        && OneHeaderCall(e.header, false, status, before)
        && (!e.header.Error() && !headerOnly ==>
              if e.html && !e.buffers then finalRc == e.header.code && content == before.content
              else finalRc == e.bodyCode && content == if e.html then HtmlError else JsonError)
    }

    /** What a request that did not stream is answered with, for each outcome of the script. */
    ghost predicate Answers(p: Plain, before: Outgoing)
      reads this`headerSent, this`headerOnly, this`headerCalls, this`headerStatus, this`unmarked, this`content,
            this`finalRc, this`result, this`redirect, this`status, this`body
    {
      // a Lua error
      && (result < 0 ==> ErrorAnswer(500, p.error, before))
      // a redirect
      && (result >= 0 && !redirect.None? ==> SoFar() == before && finalRc == redirect.code)
      // no header
      && (result >= 0 && redirect.None? && !p.header.prepared ==> SoFar() == before && finalRc == 500)
      // an error status
      && (result > 0 && redirect.None? && p.header.prepared ==>
            ErrorAnswer(if 100 <= result < 600 then result else 500, p.error, before))
      // a response
      && (result == 0 && redirect.None? && p.header.prepared ==> Buffered(p, before))
    }

    /** The response that the script has asked for, with its status and all of its body. */
    ghost predicate Buffered(p: Plain, before: Outgoing)
      reads this`headerSent, this`headerOnly, this`headerCalls, this`headerStatus, this`unmarked, this`content,
            this`finalRc, this`status, this`body
    {
      && (!p.synced ==> SoFar() == before && finalRc == 500)
      && (p.synced ==>
            && OneHeaderCall(p.header, p.header.intended, status, before)
            && (!p.header.Error() && !headerOnly ==>
                  if p.buffer then finalRc == p.bodyCode && content == Script(body)
                  else finalRc == p.header.code && content == before.content))
    }

    /** The response of a request that did not stream; every path of it ends the request, once. */
    method Respond(p: Plain)
      requires !headerSent
      modifies this`headerSent, this`headerOnly, this`headerCalls, this`headerStatus, this`unmarked, this`answered,
               this`content, this`finalized, this`finalRc
      ensures finalized == old(finalized) + 1 && (old(unmarked) ==> unmarked)
      ensures old(headerCalls) <= headerCalls <= old(headerCalls) + 1
      ensures headerSent ==> headerCalls == old(headerCalls) + 1
      ensures Answers(p, old(SoFar())) && answered
      // a body follows only a header that went out without an error and does not say that there is none
      ensures content != old(content) ==> headerCalls == old(headerCalls) + 1 && !headerOnly
      ensures content.Script? ==> content == old(content) || content.bytes == body
      // without a header of its own the request ends with a redirect or an error status, 500 for a Lua error
      ensures headerCalls == old(headerCalls) && (result < 0 || redirect.None?) ==> finalRc > NGX_OK
      ensures headerCalls == old(headerCalls) && result < 0 ==> finalRc == INTERNAL_SERVER_ERROR
    {
      answered := true;
      if result < 0 {
        SendErrorResponse(INTERNAL_SERVER_ERROR, p.error);
        return;
      }
      if !redirect.None? {
        var rc;
        if redirect.ToUri? {
          rc := redirect.code;
        } else {
          rc := redirect.code;
        }
        Finalize(rc);
        return;
      }
      if !p.header.prepared {
        Finalize(INTERNAL_SERVER_ERROR);
        return;
      }
      if result > 0 {
        SendErrorResponse(if 100 <= result < 600 then result else INTERNAL_SERVER_ERROR, p.error);
        return;
      }
      SendBuffered(p);
    }

    method SendBuffered(p: Plain)
      requires !headerSent && p.header.prepared
      modifies this`headerSent, this`headerOnly, this`headerCalls, this`headerStatus, this`unmarked, this`content,
               this`finalized, this`finalRc
      ensures finalized == old(finalized) + 1 && Buffered(p, old(SoFar()))
    {
      if !p.synced {
        Finalize(INTERNAL_SERVER_ERROR);
        return;
      }
      headerOnly := headerOnly || p.header.intended;
      var rc := SendHeader(p.header, status);
      if IsError(rc) || headerOnly {
        Finalize(rc);
        return;
      }
      if !p.buffer {
        Finalize(rc);
        return;
      }
      content := Script(body);
      Finalize(p.bodyCode);
    }

    /** An error response: a header alone, a JSON body, or an HTML body. */
    method SendErrorResponse(status: int, e: ErrorResponse)
      requires !headerSent
      modifies this`headerSent, this`headerOnly, this`headerCalls, this`headerStatus, this`unmarked, this`content,
               this`finalized, this`finalRc
      ensures finalized == old(finalized) + 1 && ErrorAnswer(status, e, old(SoFar()))
    {
      if e.headerOnly {
        headerOnly := true;
        var rc := SendHeader(e.header, status);
        Finalize(rc);
        return;
      }
      if e.html {
        SendHtml(status, e);
      } else {
        SendJson(status, e);
      }
    }

    method SendJson(status: int, e: ErrorResponse)
      requires !headerSent && !e.headerOnly && !e.html
      modifies this`headerSent, this`headerOnly, this`headerCalls, this`headerStatus, this`unmarked, this`content,
               this`finalized, this`finalRc
      ensures finalized == old(finalized) + 1 && ErrorAnswer(status, e, old(SoFar()))
    {
      if e.diagnostic && !e.escaped {
        Finalize(status);
        return;
      }
      if !e.buffers {
        Finalize(status);
        return;
      }
      if !e.space {
        Finalize(status);
        return;
      }
      if !e.listed {
        Finalize(status);
        return;
      }
      var rc := SendHeader(e.header, status);
      if IsError(rc) || headerOnly {
        Finalize(rc);
        return;
      }
      content := JsonError;
      Finalize(e.bodyCode);
    }

    /** Without a diagnostic the server's own error page is left to do. */
    method SendHtml(status: int, e: ErrorResponse)
      requires !headerSent && !e.headerOnly && e.html
      modifies this`headerSent, this`headerOnly, this`headerCalls, this`headerStatus, this`unmarked, this`content,
               this`finalized, this`finalRc
      ensures finalized == old(finalized) + 1 && ErrorAnswer(status, e, old(SoFar()))
    {
      if !e.diagnostic {
        Finalize(status);
        return;
      }
      if !e.escaped {
        Finalize(status);
        return;
      }
      if !e.listed {
        Finalize(status);
        return;
      }
      var rc := SendHeader(e.header, status);
      if IsError(rc) || headerOnly {
        Finalize(rc);
        return;
      }
      if !e.buffers {
        Finalize(rc);
        return;
      }
      content := HtmlError;
      Finalize(e.bodyCode);
    }

    /** The request is freed, however far it got: whatever end of the pipe is still open is closed. */
    method Cleanup()
      requires Closes()
      modifies this`conn, this`readEnd, this`readCloses, this`readArmed, this`writeEnd, this`writeCloses
      ensures !readEnd && !writeEnd
      ensures readCloses == writeCloses == if streaming then 1 else 0
    {
      if conn || readEnd {
        CloseRead();
      }
      if writeEnd {
        writeEnd := false;
        writeCloses := writeCloses + 1;
      }
    }

    // ---- runs ----

    /** An event that can happen does. */
    twostate predicate Happened(e: Event)
      reads this
    {
      match e
      case SetStatus(code) => old(!threadEnded && !sealed) ==> status == code
      case SetRedirect(to) => old(!threadEnded && !sealed) ==> redirect == to
      case Append(data) => old(!threadEnded && out == []) ==> body == old(body) + data
      case Flush(f) =>
        old(!threadEnded && out == [] && redirect.None? && writeEnd && |body| <= SSIZE_MAX) && f.told && f.synced
        ==> out == body && sealed
      case WriteSome(n) =>
        old(!threadEnded && conn) && 0 < n <= |old(out)| ==> written == old(written) + old(out)[..n]
      case WriteFails => old(!threadEnded) ==> out == []
      case ThreadEnds(rc) => old(!threadEnded && out == []) ==> threadEnded && result == rc
      case ReadReady(_, passes, _) =>
        old(conn && !blocked && Forwards(passes(0))) && passes(0).output.Passed? ==>
        |delivered| > |old(delivered)|
      case ReadPass(pass, _, _, _) =>
        old(conn && !blocked && Forwards(pass)) && pass.output.Passed? ==> |delivered| > |old(delivered)|
      case WriteReady(timedout, _, _, _, _) => old(conn && blocked) && timedout ==> !conn
      case TaskDone(_, _) => threadEnded == old(threadEnded) && (threadEnded ==> done)
    }

    method Dispatch(e: Event)
      requires Inv()
      modifies this
      ensures Inv() && Advanced() && Happened(e)
    {
      if OfScript(e) {
        ScriptStep(e);
      } else {
        HandlerStep(e);
      }
    }

    /** What every event keeps; without a reader nothing more is written. */
    twostate predicate Advanced()
      reads this
    {
      && (old(done) ==> done) && (old(finalized) == 1 ==> finalized == 1 && delivered == old(delivered))
      && old(delivered) <= delivered && old(written) <= written
      && (!old(conn) ==> !conn && written == old(written) && book.resent == old(book).resent)
    }

    method ScriptStep(e: Event)
      requires Inv() && OfScript(e)
      modifies this
      ensures Inv() && Advanced() && Happened(e)
    {
      hide Closes, Prefix, OneHeader, Descriptors, Books, Whole;
      match e
      case SetStatus(code) =>
        if !threadEnded { var ok := ChangeStatus(code); }
      case SetRedirect(to) =>
        if !threadEnded { var ok := ChangeRedirect(to); }
      case Append(data) =>
        if !threadEnded && out == [] { Write(data); }
      case Flush(f) =>
        if !threadEnded && out == [] { var ok := StartFlush(f); }
      case WriteSome(n) =>
        if !threadEnded && conn && 0 < n <= |out| { WriteSome(n); }
      case WriteFails =>
        if !threadEnded && out != [] { WriteFails(); }
      case ThreadEnds(rc) =>
        if !threadEnded && out == [] { ThreadEnds(rc); }
    }

    method HandlerStep(e: Event)
      requires Inv() && !OfScript(e)
      modifies this
      ensures Inv() && Advanced() && Happened(e)
    {
      hide Closes, Prefix, OneHeader, Descriptors, Books, Whole;
      match e
      case ReadReady(rearmed, passes, wait) =>
        if conn && !blocked { StreamHandler(rearmed, passes, wait); }
      case ReadPass(pass, rearmed, wait, limit) =>
        if conn && !blocked { OnePass(pass, rearmed, wait, limit); }
      case WriteReady(timedout, delayed, output, rearmed, wait) =>
        WriteHandler(timedout, delayed, output, rearmed, wait);
      case TaskDone(inspected, plain) =>
        if threadEnded && !done { FinalizationHandler(inspected, plain); }
    }

    /** Every interleaving: the request is finalized at most once, and exactly once when nothing is left to do. */
    method EventLoop(events: seq<Event>)
      requires Inv()
      modifies this
      ensures Inv() && finalized <= 1 && (done && !conn ==> finalized == 1)
      ensures delivered <= written && (lastMarker ==> delivered == written)
      ensures !unmarked ==> headerCalls <= 1 && !earlyEnd
      // each byte of the body was written once and in order, exactly if no write followed a flush that failed part-way
      ensures InOrder(book.sent) <==> !book.resent
      ensures !book.resent ==> written <= book.added
      // once nothing is left to flush the client was sent exactly the body, if and only if failed flushes wrote nothing
      ensures out == body == [] ==> (written == book.added <==> book.wasted == 0)
      ensures lastMarker && body == [] ==> (delivered == book.added <==> book.wasted == 0)
      // a failure for want of a reader repeats nothing
      ensures !old(conn) ==> !conn && written == old(written) && book.resent == old(book).resent
      // a redirected response has streamed nothing, and a header has the status that the script has set
      ensures !redirect.None? ==> written == []
      ensures headerCalls > 0 && !answered ==> headerStatus == status
      // a response that was not streamed has all that the script wrote; one that broke off ends with its own code
      ensures content.Script? && !unmarked ==> content.bytes == book.added
      ensures finalized == 1 && !answered && !lastMarker && !earlyEnd ==> finalRc == streamingRc
      ensures events != [] && events[|events| - 1].TaskDone? && threadEnded ==> done
    {
      hide Booked;
      for n := 0 to |events|
        invariant Inv()
        invariant !old(conn) ==> !conn && written == old(written) && book.resent == old(book).resent
        invariant n > 0 && events[n - 1].TaskDone? && threadEnded ==> done
      {
        Dispatch(events[n]);
      }
      OnceInOrder(book, body, out, written);
      if out == body == [] { ExactWhenEmpty(book, written); }
    }

    /**
      * Once the thread is done a client that takes what it is offered sees the request ended, whatever goes wrong: one
      * event for waiting writes, one for each byte in the pipe at most, and one for the end of the pipe.
      */
    method Finish(outcomes: nat -> Willing) returns (events: nat)
      requires Inv() && done && forall n :: TakesAll(outcomes(n))
      modifies this
      ensures Inv() && finalized == 1 && !conn
      ensures events <= |old(pipe)| + 2
    {
      hide Descriptors, Data, Phases, StreamInv, Books;
      events := 0;
      while conn
        invariant Inv() && done
        invariant events + |pipe| + (if conn then 1 else 0) + (if conn && blocked then 1 else 0) <= |old(pipe)| + 2
        decreases |pipe|, conn && blocked, conn
      {
        var w := outcomes(events);
        assert TakesAll(w);
        if blocked {
          WriteHandler(false, false, if w.flushes then Passed(false) else Failed, w.rearmed, w.wait);
        } else {
          StreamHandler(w.rearmed, w.passes, w.wait);
        }
        events := events + 1;
      }
    }
  }

  const FINE := Wait(true, false, false, true)

  /** A response that streams some bytes and succeeds, apart from what a header call may leave unmarked. */
  function Streamed(sent: bool): Read {
    Read(true, false, READS_MAX, Header(false, true, NGX_OK, false, sent), Passed(false), NGX_OK)
  }

  const FLUSHED := Flushing(true, true)

  /** The thread has flushed one byte and ended; nothing has been read from the pipe yet. */
  method OneByteFlushed(plain: Plain) returns (r: Request)
    ensures fresh(r) && r.Inv() && r.conn && !r.blocked && r.done && !r.headerSent && r.pipe == [1]
  {
    hide Request.Inv, Sent, Added;
    r := new Request(true, true);
    r.Write([1]);
    var ok := r.StartFlush(FLUSHED);
    r.WriteSome(1);
    r.ThreadEnds(0);
    r.FinalizationHandler(true, plain);
  }

  /** A run in which a header call reports no error but does not mark the header as sent: the pipe ends too early. */
  method UnmarkedHeader(plain: Plain) returns (r: Request)
    ensures r.Inv() && r.unmarked && r.earlyEnd && r.finalized == 1
  {
    hide Request.Closes, Request.Prefix, Request.OneHeader, Request.HeaderInFlux, Request.Books;
    r := OneByteFlushed(plain);
    r.StillStreaming();
    var again := r.Pass(Streamed(false), true, FINE);
    again := r.Pass(Streamed(false), true, FINE);
  }

  /** A run in which a script flushes again after a failed write: the client is sent the first byte twice. */
  method RepeatedFlush() returns (r: Request)
    ensures r.Inv() && r.conn && r.pipe == [1, 1, 2] && r.body == [] && r.book.added == [1, 2] && r.book.resent
  {
    hide Request.Inv, Request.Books;
    r := new Request(true, true);
    r.Write([1, 2]);
    var ok := r.StartFlush(FLUSHED);
    r.WriteSome(1);
    r.WriteFails();
    ok := r.StartFlush(FLUSHED);
    r.WriteSome(2);
  }
}
