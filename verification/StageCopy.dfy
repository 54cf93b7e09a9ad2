/** Copying one declared file into a stage through a fixed buffer, against a reader, a writer and a
    context that may each answer anything at every call. */
module StageCopy {
  import opened Wrappers

  datatype ReadError = NoError | EndOfFile | Broken

  /** What one read answers: a count, which need not be sensible, the bytes it leaves in the
      buffer, and an error that may accompany data. */
  datatype ReadReply = ReadReply(count: int, fill: nat -> byte, error: ReadError)

  datatype WriteReply = WriteReply(count: int, failed: bool)

  datatype CopyResult = Copied | Cancelled | NotOpened | NotInspected | NotRegular | NotCreated | WrongSize | InvalidReader | ReadFailed | NoProgress
                      | TooLarge | WriteFailed | WrongDigest | SyncFailed | CloseFailed

  /** Which of the calls around the copy loop work: opening and inspecting the source, creating the
      directories and the file, and afterwards the synchronization and the two closes. */
  datatype Around = Around(open: bool, inspect: bool, directories: bool, create: bool,
                           sync: bool, closeOutput: bool, closeInput: bool)

  const SMOOTH := Around(true, true, true, true, true, true, true)

  class Context {
    const done: nat -> bool
    var checks: nat

    constructor (done: nat -> bool)
      ensures this.done == done && checks == 0
    {
      this.done := done;
      checks := 0;
    }

    method Err() returns (ended: bool)
      modifies this
      ensures ended == done(old(checks)) && checks == old(checks) + 1
    {
      ended := done(checks);
      checks := checks + 1;
    }
  }

  class Reader {
    const replies: nat -> ReadReply
    var calls: nat

    constructor (replies: nat -> ReadReply)
      ensures this.replies == replies && calls == 0
    {
      this.replies := replies;
      calls := 0;
    }

    method Read(buffer: array<byte>) returns (count: int, error: ReadError)
      modifies this, buffer
      ensures calls == old(calls) + 1
      ensures count == replies(old(calls)).count && error == replies(old(calls)).error
      ensures forall i :: 0 <= i < buffer.Length ==> buffer[i] == replies(old(calls)).fill(i)
    {
      var reply := replies(calls);
      for i := 0 to buffer.Length
        invariant calls == old(calls)
        invariant forall k :: 0 <= k < i ==> buffer[k] == reply.fill(k)
      {
        buffer[i] := reply.fill(i);
      }
      count, error := reply.count, reply.error;
      calls := calls + 1;
    }
  }

  /** Answers depend on the call and on how much it is offered. */
  class Writer {
    const replies: (nat, nat) -> WriteReply
    var calls: nat
    var written: seq<byte>

    constructor (replies: (nat, nat) -> WriteReply)
      ensures this.replies == replies && calls == 0 && written == []
    {
      this.replies := replies;
      calls, written := 0, [];
    }

    method Write(data: seq<byte>) returns (count: int, failed: bool)
      modifies this
      ensures calls == old(calls) + 1
      ensures count == replies(old(calls), |data|).count && failed == replies(old(calls), |data|).failed
      ensures 0 <= count <= |data| ==> written == old(written) + data[..count]
      ensures !(0 <= count <= |data|) ==> written == old(written)
    {
      var reply := replies(calls, |data|);
      count, failed := reply.count, reply.failed;
      if 0 <= count <= |data| {
        written := written + data[..count];
      }
      calls := calls + 1;
    }
  }

  // ---- what the collaborators can be expected to do ----

  ghost predicate Quiet(done: nat -> bool) {
    forall n :: !done(n)
  }

  /** Every write makes progress and none fails. */
  ghost predicate Obeys(replies: (nat, nat) -> WriteReply) {
    forall n, offered :: offered > 0 ==> 0 < replies(n, offered).count <= offered && !replies(n, offered).failed
  }

  function Data(reply: ReadReply): seq<byte> {
    seq(if reply.count > 0 then reply.count else 0, i requires i >= 0 => reply.fill(i))
  }

  /** Everything the first `n` reads delivered. */
  function Delivered(replies: nat -> ReadReply, n: nat): seq<byte> {
    if n == 0 then [] else Delivered(replies, n - 1) + Data(replies(n - 1))
  }

  lemma {:induction false} DeliveredGrows(replies: nat -> ReadReply, m: nat, n: nat)
    requires m <= n
    ensures Delivered(replies, m) <= Delivered(replies, n)
    decreases n - m
  {
    if m < n { DeliveredGrows(replies, m, n - 1); }
  }

  /** The reader makes progress on its first `n` reads and then reports the end of the file,
      possibly together with the last data. */
  ghost predicate Serves(replies: nat -> ReadReply, size: nat, n: nat) {
    && (forall k :: 0 <= k < n ==> 0 < replies(k).count <= size && replies(k).error == NoError)
    && 0 <= replies(n).count <= size && replies(n).error == EndOfFile
  }

  ghost predicate Fits(data: seq<byte>, expectedSize: Option<nat>, maxSize: nat,
                       hash: seq<byte> -> string, expectedDigest: string) {
    |data| <= maxSize && (expectedSize.Some? ==> |data| == expectedSize.value) && hash(data) == expectedDigest
  }

  /** The file is regular and claims a size the declaration allows. */
  predicate Declared(regular: bool, statSize: int, expectedSize: Option<nat>, maxSize: nat) {
    regular && 0 <= statSize <= maxSize && (expectedSize.Some? ==> statSize == expectedSize.value)
  }

  /** The reader serves the expected bytes up to its end. */
  ghost predicate Obtainable(replies: nat -> ReadReply, size: nat, expectedSize: Option<nat>, maxSize: nat,
                             hash: seq<byte> -> string, expectedDigest: string) {
    exists n: nat :: Serves(replies, size, n)
                  && Fits(Delivered(replies, n + 1), expectedSize, maxSize, hash, expectedDigest)
  }

  // ---- the loops ----

  /** Writes all of `data`, or stops having written a prefix of it. Against a writer that obeys and
      a context that never ends it always succeeds. */
  method WriteAll(ctx: Context, writer: Writer, data: seq<byte>) returns (ok: bool)
    modifies ctx, writer
    ensures old(writer.written) <= writer.written <= old(writer.written) + data
    ensures ok ==> writer.written == old(writer.written) + data
    ensures Quiet(ctx.done) && Obeys(writer.replies) ==> ok
  {
    var rest := data;
    while |rest| > 0
      invariant writer.written + rest == old(writer.written) + data
      invariant old(writer.written) <= writer.written
      decreases |rest|
    {
      var ended := ctx.Err();
      if ended {
        return false;
      }
      ghost var before := writer.written;
      var count, failed := writer.Write(rest);
      if count < 0 || count > |rest| {
        return false;
      }
      assert rest == rest[..count] + rest[count..];
      assert writer.written + rest[count..] == before + rest;
      rest := rest[count..];
      if failed {
        return false;
      }
      if count == 0 {
        return false;
      }
    }
    ok := true;
  }

  /** The first `n` reads each made progress and reported nothing. */
  ghost predicate Flowing(replies: nat -> ReadReply, size: nat, n: nat) {
    forall k :: 0 <= k < n ==> 0 < replies(k).count <= size && replies(k).error == NoError
  }

  /** A reply after which a file cannot be read to its end. */
  ghost predicate Stuck(reply: ReadReply, size: nat) {
    !(0 <= reply.count <= size) || reply.error == Broken || (reply.error == NoError && reply.count == 0)
  }

  /** No end can be reached within `maxSize` bytes. */
  ghost predicate Hopeless(replies: nat -> ReadReply, size: nat, maxSize: nat) {
    forall n: nat :: Serves(replies, size, n) ==> |Delivered(replies, n + 1)| > maxSize
  }

  lemma StuckIsHopeless(replies: nat -> ReadReply, size: nat, c: nat, maxSize: nat)
    requires Flowing(replies, size, c) && Stuck(replies(c), size)
    ensures Hopeless(replies, size, maxSize)
  {
    forall n: nat ensures !Serves(replies, size, n) {
      assert n < c ==> replies(n).error == NoError;
      assert n > c && Serves(replies, size, n) ==> 0 < replies(c).count <= size && replies(c).error == NoError;
    }
  }

  lemma OverflowIsHopeless(replies: nat -> ReadReply, size: nat, c: nat, maxSize: nat)
    requires Flowing(replies, size, c) && |Delivered(replies, c + 1)| > maxSize
    ensures Hopeless(replies, size, maxSize)
  {
    forall n: nat | Serves(replies, size, n)
      ensures |Delivered(replies, n + 1)| > maxSize
    {
      assert n < c ==> replies(n).error == NoError;
      DeliveredGrows(replies, c + 1, n + 1);
    }
  }

  /** What must have happened for the loop to stop like this after `calls` reads. */
  ghost predicate Explains(why: CopyResult, replies: nat -> ReadReply, calls: nat, size: nat, maxSize: nat,
                           done: nat -> bool, writes: (nat, nat) -> WriteReply)
  {
    match why
    case Cancelled => !Quiet(done)
    case WriteFailed => !(Quiet(done) && Obeys(writes))
    case InvalidReader => calls > 0 && !(0 <= replies(calls - 1).count <= size)
    case TooLarge => calls > 0 && |Delivered(replies, calls)| > maxSize
    case ReadFailed => calls > 0 && replies(calls - 1).error == Broken
    case NoProgress => calls > 0 && replies(calls - 1).count == 0 && replies(calls - 1).error == NoError
    case _ => false
  }

  /** With no end of the context and no failing write, whatever stops the loop rules out an end of the
      file within the bound. */
  lemma ExplainedIsHopeless(why: CopyResult, replies: nat -> ReadReply, c: nat, calls: nat, size: nat, maxSize: nat,
                            done: nat -> bool, writes: (nat, nat) -> WriteReply)
    requires Flowing(replies, size, c) && c <= calls <= c + 1 && |Delivered(replies, c)| <= maxSize
    requires Explains(why, replies, calls, size, maxSize, done, writes) && Quiet(done) && Obeys(writes)
    ensures Hopeless(replies, size, maxSize)
  {
    if why == TooLarge {
      OverflowIsHopeless(replies, size, calls - 1, maxSize);
    } else {
      StuckIsHopeless(replies, size, calls - 1, maxSize);
    }
  }

  /** One turn of the loop: the bytes just read, or why the copy stops. */
  datatype Turn = More | End | Stop(why: CopyResult)

  method TakeTurn(ctx: Context, reader: Reader, writer: Writer, buffer: array<byte>, sofar: seq<byte>, maxSize: nat)
      returns (turn: Turn, hashed: seq<byte>)
    requires Flowing(reader.replies, buffer.Length, reader.calls)
    requires sofar == writer.written == Delivered(reader.replies, reader.calls) && |sofar| <= maxSize
    modifies ctx, reader, writer, buffer
    ensures old(reader.calls) <= reader.calls <= old(reader.calls) + 1
    ensures |writer.written| <= maxSize && writer.written <= Delivered(reader.replies, reader.calls)
    ensures turn != Stop(Copied)
    ensures !turn.Stop? ==>
      reader.calls == old(reader.calls) + 1 && hashed == writer.written == Delivered(reader.replies, reader.calls)
    ensures turn == More ==> Flowing(reader.replies, buffer.Length, reader.calls) && |hashed| > |sofar|
    ensures turn == End ==> Serves(reader.replies, buffer.Length, old(reader.calls))
    ensures turn.Stop? ==>
      Explains(turn.why, reader.replies, reader.calls, buffer.Length, maxSize, ctx.done, writer.replies)
  {
    hashed := sofar;
    ghost var c := reader.calls;
    var ended := ctx.Err();
    if ended {
      return Stop(Cancelled), hashed;
    }
    var count, error := reader.Read(buffer);
    if count < 0 || count > buffer.Length {
      return Stop(InvalidReader), hashed;
    }
    assert buffer[..count] == Data(reader.replies(c));
    ended := ctx.Err();
    if ended {
      return Stop(Cancelled), hashed;
    }
    if count > 0 {
      if |sofar| + count > maxSize {
        return Stop(TooLarge), hashed;
      }
      hashed := hashed + buffer[..count];
      var wrote := WriteAll(ctx, writer, buffer[..count]);
      if !wrote {
        return Stop(WriteFailed), hashed;
      }
    }
    if error == EndOfFile {
      return End, hashed;
    }
    if error == Broken {
      return Stop(ReadFailed), hashed;
    }
    if count == 0 {
      return Stop(NoProgress), hashed;
    }
    turn := More;
  }

  /** The read-hash-write loop. What has been hashed, written and delivered agree at every turn. */
  method Pump(ctx: Context, reader: Reader, writer: Writer, buffer: array<byte>, maxSize: nat)
      returns (r: CopyResult, hashed: seq<byte>)
    requires reader.calls == 0 && writer.written == []
    modifies ctx, reader, writer, buffer
    ensures |writer.written| <= maxSize
    ensures writer.written <= Delivered(reader.replies, reader.calls)
    ensures r == Copied ==>
      && reader.calls > 0 && Serves(reader.replies, buffer.Length, reader.calls - 1)
      && hashed == writer.written == Delivered(reader.replies, reader.calls)
    ensures r != Copied && Quiet(ctx.done) && Obeys(writer.replies) ==> Hopeless(reader.replies, buffer.Length, maxSize)
    ensures r != Copied ==> Explains(r, reader.replies, reader.calls, buffer.Length, maxSize, ctx.done, writer.replies)
  {
    hashed := [];
    while true
      invariant Flowing(reader.replies, buffer.Length, reader.calls)
      invariant hashed == writer.written == Delivered(reader.replies, reader.calls)
      invariant |hashed| <= maxSize
      decreases maxSize - |hashed|
    {
      ghost var c := reader.calls;
      var turn, now := TakeTurn(ctx, reader, writer, buffer, hashed, maxSize);
      hashed := now;
      match turn {
        case More =>
        case End => return Copied, hashed;
        case Stop(why) =>
          if Quiet(ctx.done) && Obeys(writer.replies) {
            ExplainedIsHopeless(why, reader.replies, c, reader.calls, buffer.Length, maxSize, ctx.done, writer.replies);
          }
          return why, hashed;
      }
    }
  }

  /** What the checks before the loop answer, in their order; past them the file is as declared. */
  ghost predicate Entered(checks: nat, done: nat -> bool, regular: bool, statSize: int, expectedSize: Option<nat>,
                          maxSize: nat, around: Around, r: CopyResult)
  {
    if done(checks) then r == Cancelled
    else if !around.open then r == NotOpened
    else if !around.inspect then r == NotInspected
    else if !regular then r == NotRegular
    else if !(0 <= statSize <= maxSize && (expectedSize.Some? ==> statSize == expectedSize.value)) then r == WrongSize
    else if !(around.directories && around.create) then r == NotCreated
    else
      && r !in {NotOpened, NotInspected, NotRegular, NotCreated}
      && Started(checks, done, regular, statSize, expectedSize, maxSize, around)
  }

  /** The checks after the loop, on all that was written. */
  method Settle(written: seq<byte>, expectedSize: Option<nat>, hash: seq<byte> -> string, expectedDigest: string,
                around: Around) returns (r: CopyResult)
    ensures Settled(r, written, expectedSize, hash, expectedDigest, around)
  {
    if expectedSize.Some? && |written| != expectedSize.value {
      return WrongSize;
    }
    if hash(written) != expectedDigest {
      return WrongDigest;
    }
    if !around.sync {
      return SyncFailed;
    }
    if !around.closeOutput || !around.closeInput {
      return CloseFailed;
    }
    r := Copied;
  }

  /** All checks before the loop pass. */
  ghost predicate Started(checks: nat, done: nat -> bool, regular: bool, statSize: int, expectedSize: Option<nat>,
                          maxSize: nat, around: Around)
  {
    && !done(checks) && around.open && around.inspect && regular && 0 <= statSize <= maxSize
    && (expectedSize.Some? ==> statSize == expectedSize.value)
    && around.directories && around.create
  }

  /** The first that is wrong with what was written, or nothing. */
  ghost predicate Settled(r: CopyResult, written: seq<byte>, expectedSize: Option<nat>, hash: seq<byte> -> string,
                          expectedDigest: string, around: Around)
  {
    && r in {WrongSize, WrongDigest, SyncFailed, CloseFailed, Copied}
    && (r == WrongSize <==> expectedSize.Some? && |written| != expectedSize.value)
    && (r != WrongSize ==>
         && (r == WrongDigest <==> hash(written) != expectedDigest)
         && (r == SyncFailed <==> hash(written) == expectedDigest && !around.sync)
         && (r == Copied <==> hash(written) == expectedDigest && around.sync && around.closeOutput && around.closeInput))
  }

  /** The loop reached the end of the file, and then this was the answer. */
  ghost predicate Ended(r: CopyResult, replies: nat -> ReadReply, calls: nat, size: nat, written: seq<byte>,
                        expectedSize: Option<nat>, hash: seq<byte> -> string, expectedDigest: string, around: Around)
  {
    && calls > 0 && Serves(replies, size, calls - 1) && written == Delivered(replies, calls)
    && Settled(r, written, expectedSize, hash, expectedDigest, around)
  }

  /** Copies the file. Never more than `maxSize` bytes are written, and only bytes the reader
      delivered, in order. Success means the reader reached its end and the output holds all it
      delivered, with the expected size and digest; and when neither the context nor the writer nor
      the closing calls get in the way, the copy succeeds exactly for a file that can be read to its
      end and is the expected one. */
  method CopyStagedFile(ctx: Context, reader: Reader, writer: Writer, buffer: array<byte>,
                        regular: bool, statSize: int, expectedSize: Option<nat>, maxSize: nat,
                        hash: seq<byte> -> string, expectedDigest: string, around: Around)
      returns (r: CopyResult)
    requires reader.calls == 0 && writer.written == []
    modifies ctx, reader, writer, buffer
    ensures |writer.written| <= maxSize
    ensures writer.written <= Delivered(reader.replies, reader.calls)
    ensures r == Copied ==>
      && reader.calls > 0 && Serves(reader.replies, buffer.Length, reader.calls - 1)
      && writer.written == Delivered(reader.replies, reader.calls)
      && Fits(writer.written, expectedSize, maxSize, hash, expectedDigest)
    ensures r == Copied ==> regular && |writer.written| <= maxSize && hash(writer.written) == expectedDigest
    ensures r == Copied && expectedSize.Some? ==> |writer.written| == statSize == expectedSize.value
    ensures r == Copied ==> around == SMOOTH && Declared(regular, statSize, expectedSize, maxSize)
    ensures Entered(old(ctx.checks), ctx.done, regular, statSize, expectedSize, maxSize, around, r)
    ensures r in {Cancelled, NotOpened, NotInspected, NotRegular, WrongSize, NotCreated}
         || Explains(r, reader.replies, reader.calls, buffer.Length, maxSize, ctx.done, writer.replies)
         || Ended(r, reader.replies, reader.calls, buffer.Length, writer.written, expectedSize, hash, expectedDigest, around)
    ensures Started(old(ctx.checks), ctx.done, regular, statSize, expectedSize, maxSize, around) && r == WrongSize ==>
      Ended(r, reader.replies, reader.calls, buffer.Length, writer.written, expectedSize, hash, expectedDigest, around)
    ensures r == Cancelled ==> !Quiet(ctx.done)
    ensures Declared(regular, statSize, expectedSize, maxSize) && around == SMOOTH
      && Quiet(ctx.done) && Obeys(writer.replies)
      ==> (r == Copied <==> Obtainable(reader.replies, buffer.Length, expectedSize, maxSize, hash, expectedDigest))
  {
    var ended := ctx.Err();
    if ended {
      return Cancelled;
    }
    if !around.open {
      return NotOpened;
    }
    if !around.inspect {
      return NotInspected;
    }
    if !regular {
      return NotRegular;
    }
    if statSize < 0 || statSize > maxSize || (expectedSize.Some? && statSize != expectedSize.value) {
      return WrongSize;
    }
    if !around.directories || !around.create {
      return NotCreated;
    }
    var pumped, hashed := Pump(ctx, reader, writer, buffer, maxSize);
    if pumped != Copied {
      return pumped;
    }
    ghost var end := reader.calls - 1;
    forall n: nat | Serves(reader.replies, buffer.Length, n) ensures n == end {
      OneEnd(reader.replies, buffer.Length, n, end);
    }
    r := Settle(hashed, expectedSize, hash, expectedDigest, around);
  }

  lemma OneEnd(replies: nat -> ReadReply, size: nat, m: nat, n: nat)
    requires Serves(replies, size, m) && Serves(replies, size, n)
    ensures m == n
  {
  }
}
