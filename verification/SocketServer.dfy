/** One connection of the request socket: read a line, call the handler, write the reply. */
module SocketServer {
  import opened Basics

  const NEWLINE: byte := 10
  const MAX_REQUEST_BYTES: nat := 64 * 1024
  const READ_SIZE: nat := 1024

  /** What one read(2) reports: interrupted, an error, end of stream, or 1 to 1024 bytes. */
  datatype Read = Interrupted | Failed | Closed | Data(bytes: seq<byte>)

  ghost predicate SaneInput(input: seq<Read>) {
    forall i :: 0 <= i < |input| && input[i].Data? ==> 0 < |input[i].bytes| <= READ_SIZE
  }

  /** The read loop, starting with `request` already read. */
  function Receive(request: seq<byte>, input: seq<Read>): Option<seq<byte>>
    decreases |input|
  {
    if |request| >= MAX_REQUEST_BYTES || input == [] then None
    else
      match input[0]
      case Interrupted => Receive(request, input[1..])
      case Failed => None
      case Closed => None
      case Data(bytes) =>
        var all := request + bytes;
        match Find(all, NEWLINE)
        case Some(p) => Some(all[..p])
        case None => Receive(all, input[1..])
  }

  /** Everything the peer delivers before an error or the end of the stream. */
  function Delivered(input: seq<Read>): seq<byte> {
    if input == [] || input[0].Failed? || input[0].Closed? then []
    else (if input[0].Data? then input[0].bytes else []) + Delivered(input[1..])
  }

  /** Offset at which the chunk that holds byte `p` of the stream begins, counting from `base`. */
  function ChunkStart(base: nat, input: seq<Read>, p: nat): nat
    decreases |input|
  {
    if input == [] || input[0].Failed? || input[0].Closed? then base
    else if input[0].Interrupted? then ChunkStart(base, input[1..], p)
    else if p < base + |input[0].bytes| then base
    else ChunkStart(base + |input[0].bytes|, input[1..], p)
  }

  lemma NoNewlineBefore(x: seq<byte>, y: seq<byte>, p: nat)
    requires NEWLINE !in x && Find(x + y, NEWLINE) == Some(p)
    ensures |x| <= p
  {
  }

  lemma {:induction false} ChunkStartFromBase(base: nat, input: seq<Read>, p: nat)
    ensures base <= ChunkStart(base, input, p)
    ensures base <= p ==> ChunkStart(base, input, p) <= p
    decreases |input|
  {
    if input != [] && input[0].Interrupted? {
      ChunkStartFromBase(base, input[1..], p);
    } else if input != [] && input[0].Data? && p >= base + |input[0].bytes| {
      ChunkStartFromBase(base + |input[0].bytes|, input[1..], p);
    }
  }

  /** What `Receive` should return for a stream that begins with `request`. */
  function Expected(request: seq<byte>, input: seq<Read>): Option<seq<byte>> {
    var s := request + Delivered(input);
    match Find(s, NEWLINE)
    case None => None
    case Some(p) => if ChunkStart(|request|, input, p) < MAX_REQUEST_BYTES then Some(s[..p]) else None
  }

  lemma NewlineKept(x: seq<byte>, y: seq<byte>, p: nat)
    requires Find(x, NEWLINE) == Some(p)
    ensures Find(x + y, NEWLINE) == Some(p) && (x + y)[..p] == x[..p]
  {
    assert (x + y)[..p] == x[..p];
    FindUnique(x + y, NEWLINE, p);
  }

  lemma FirstChunk(request: seq<byte>, input: seq<Read>)
    requires input != [] && input[0].Data?
    ensures request + Delivered(input) == (request + input[0].bytes) + Delivered(input[1..])
  {
  }

  lemma NewlineInChunk(request: seq<byte>, input: seq<Read>, p: nat)
    requires NEWLINE !in request && input != [] && input[0].Data?
    requires Find(request + input[0].bytes, NEWLINE) == Some(p)
    ensures Expected(request, input) ==
            if |request| < MAX_REQUEST_BYTES then Some((request + input[0].bytes)[..p]) else None
  {
    FirstChunk(request, input);
    NewlineKept(request + input[0].bytes, Delivered(input[1..]), p);
  }

  lemma NewlineAfterChunk(request: seq<byte>, input: seq<Read>)
    requires NEWLINE !in request && input != [] && input[0].Data? && NEWLINE !in input[0].bytes
    ensures |request| < MAX_REQUEST_BYTES ==>
              Expected(request, input) == Expected(request + input[0].bytes, input[1..])
    ensures |request| >= MAX_REQUEST_BYTES ==> Expected(request, input) == None
  {
    var all := request + input[0].bytes;
    var s := request + Delivered(input);
    FirstChunk(request, input);
    if Find(s, NEWLINE).Some? {
      NoNewlineBefore(all, Delivered(input[1..]), Find(s, NEWLINE).value);
      ChunkStartFromBase(|all|, input[1..], Find(s, NEWLINE).value);
    }
  }

  /** The request handed over is the stream up to its first newline, and there is one exactly
      when the chunk with that newline begins below the size limit. */
  lemma {:induction false} ReceiveExact(request: seq<byte>, input: seq<Read>)
    requires NEWLINE !in request
    ensures Receive(request, input) == Expected(request, input)
    decreases |input|
  {
    if input == [] || input[0].Failed? || input[0].Closed? {
      assert request + Delivered(input) == request;
    } else if input[0].Interrupted? {
      ReceiveExact(request, input[1..]);
      var s := request + Delivered(input);
      assert s == request + Delivered(input[1..]);
      if Find(s, NEWLINE).Some? { ChunkStartFromBase(|request|, input[1..], Find(s, NEWLINE).value); }
    } else {
      var all := request + input[0].bytes;
      match Find(all, NEWLINE)
      case Some(p) => NewlineInChunk(request, input, p);
      case None =>
        assert forall b :: b in input[0].bytes ==> b in all;
        NewlineAfterChunk(request, input);
        ReceiveExact(all, input[1..]);
    }
  }

  lemma {:induction false} ChunkIsShort(base: nat, input: seq<Read>, p: nat)
    requires SaneInput(input) && base <= p < base + |Delivered(input)|
    ensures ChunkStart(base, input, p) <= p < ChunkStart(base, input, p) + READ_SIZE
    decreases |input|
  {
    if input[0].Interrupted? {
      assert SaneInput(input[1..]);
      assert [] + Delivered(input[1..]) == Delivered(input[1..]);
      ChunkIsShort(base, input[1..], p);
    } else if p >= base + |input[0].bytes| {
      assert SaneInput(input[1..]);
      ChunkIsShort(base + |input[0].bytes|, input[1..], p);
    }
  }

  /** Framing does not depend on chunking outside a 1023-byte band: a first newline below 65536
      hands over exactly the bytes before it, none below 66559 hands over nothing. */
  lemma FramingIgnoresChunking(input: seq<Read>)
    requires SaneInput(input)
    ensures var s := Delivered(input);
            match Find(s, NEWLINE)
            case None => Receive([], input) == None
            case Some(p) =>
              && (p < 65536 ==> Receive([], input) == Some(s[..p]))
              && (p >= 66559 ==> Receive([], input) == None)
              && (Receive([], input).Some? ==> Receive([], input) == Some(s[..p]))
  {
    assert [] + Delivered(input) == Delivered(input);
    ReceiveExact([], input);
    if Find(Delivered(input), NEWLINE).Some? {
      ChunkIsShort(0, input, Find(Delivered(input), NEWLINE).value);
    }
  }

  /** Interrupted reads are retried: they change nothing, wherever they come. */
  lemma {:induction false} InterruptsIgnored(request: seq<byte>, before: seq<Read>, later: seq<Read>)
    ensures Receive(request, before + [Interrupted] + later) == Receive(request, before + later)
    decreases |before|
  {
    var long, short := before + [Interrupted] + later, before + later;
    if before == [] {
      assert long[1..] == later && short == later;
    } else {
      assert long[1..] == before[1..] + [Interrupted] + later && short[1..] == before[1..] + later;
      InterruptsIgnored(request, before[1..], later);
      if before[0].Data? { InterruptsIgnored(request + before[0].bytes, before[1..], later); }
    }
  }

  function Flat(chunks: seq<seq<byte>>): seq<byte> {
    if chunks == [] then [] else chunks[0] + Flat(chunks[1..])
  }

  function DataReads(chunks: seq<seq<byte>>): seq<Read> {
    if chunks == [] then [] else [Data(chunks[0])] + DataReads(chunks[1..])
  }

  /** What is delivered are the bytes read, in order, up to the end of the stream or an error. */
  lemma {:induction false} DeliveredInOrder(chunks: seq<seq<byte>>, end: Read, later: seq<Read>)
    requires end.Closed? || end.Failed?
    ensures Delivered(DataReads(chunks) + [end] + later) == Flat(chunks)
  {
    var input := DataReads(chunks) + [end] + later;
    if chunks == [] {
      assert input[0] == end;
    } else {
      assert input[0] == Data(chunks[0]);
      assert input[1..] == DataReads(chunks[1..]) + [end] + later;
      DeliveredInOrder(chunks[1..], end, later);
    }
  }

  /** What one write(2) reports; it never takes more than it was given. */
  datatype Write = Retry | Error | Took(n: nat)

  function Taken(w: Write, left: nat): nat {
    if w.Took? then (if w.n < left then w.n else left) else 0
  }

  /** Bytes out after these writes, when the loop stops at the first error. */
  function Written(size: nat, writes: seq<Write>): (n: nat)
    ensures n <= size
  {
    if writes == [] then 0
    else
      var before := Written(size, writes[..|writes| - 1]);
      if Error in writes then before else before + Taken(writes[|writes| - 1], size - before)
  }

  class Connection {
    var sent: seq<byte>
    var calls: seq<seq<byte>>

    constructor ()
      ensures sent == [] && calls == []
    {
      sent, calls := [], [];
    }

    method ReadRequest(input: seq<Read>) returns (r: Option<seq<byte>>)
      ensures r == Receive([], input)
    {
      var request: seq<byte> := [];
      var i := 0;
      assert input[0..] == input;
      while |request| < MAX_REQUEST_BYTES && i < |input|
        invariant 0 <= i <= |input|
        invariant Receive([], input) == Receive(request, input[i..])
      {
        assert input[i..][1..] == input[i + 1..];
        var read := input[i];
        i := i + 1;
        if read.Interrupted? {
          continue;
        }
        if read.Failed? || read.Closed? {
          return None;
        }
        request := request + read.bytes;
        var pos := Find(request, NEWLINE);
        if pos.Some? {
          return Some(request[..pos.value]);
        }
      }
      return None;
    }

    method WriteResponse(response: seq<byte>, writes: seq<Write>)
      modifies this`sent
      ensures sent == old(sent) + response[..Written(|response|, writes)]
    {
      var written := 0;
      var i := 0;
      while written < |response| && i < |writes|
        invariant 0 <= i <= |writes| && written <= |response|
        invariant Error !in writes[..i]
        invariant written == Written(|response|, writes[..i])
        invariant sent == old(sent) + response[..written]
      {
        var w := writes[i];
        assert writes[..i + 1][..i] == writes[..i];
        assert writes[..i + 1] == writes[..i] + [w];
        if w.Error? {
          WrittenAfterError(|response|, writes, i);
          return;
        }
        var n := Taken(w, |response| - written);
        sent := sent + response[written..written + n];
        assert response[..written] + response[written..written + n] == response[..written + n];
        written := written + n;
        i := i + 1;
      }
      WrittenFull(|response|, writes, i);
    }

    /** Serves one connection: at most one call of the handler, whose reply goes out with one newline. */
    method Serve(input: seq<Read>, handler: seq<byte> -> seq<byte>, writes: seq<Write>)
      requires sent == [] && calls == []
      modifies this
      ensures match Receive([], input)
              case None => calls == [] && sent == []
              case Some(q) =>
                && calls == [q]
                && sent == (handler(q) + [NEWLINE])[..Written(|handler(q)| + 1, writes)]
                && (Error !in writes && Total(writes) > |handler(q)| ==> sent == handler(q) + [10])
    {
      var request := ReadRequest(input);
      if request.None? {
        return;
      }
      calls := calls + [request.value];
      var response := handler(request.value) + [NEWLINE];
      WriteResponse(response, writes);
      if Error !in writes {
        WritesComplete(|response|, writes);
      }
    }
  }

  lemma {:induction false} WrittenAfterError(size: nat, writes: seq<Write>, i: nat)
    requires i < |writes| && writes[i] == Error && Error !in writes[..i]
    ensures Written(size, writes) == Written(size, writes[..i])
  {
    var n := |writes| - 1;
    if i < n {
      assert writes[..n][..i] == writes[..i];
      WrittenAfterError(size, writes[..n], i);
    }
  }

  lemma {:induction false} WrittenFull(size: nat, writes: seq<Write>, i: nat)
    requires i <= |writes| && (i == |writes| || Written(size, writes[..i]) == size)
    ensures Written(size, writes) == Written(size, writes[..i])
  {
    if i == |writes| {
      assert writes[..i] == writes;
    } else {
      var n := |writes| - 1;
      assert writes[..n][..i] == writes[..i];
      WrittenFull(size, writes[..n], i);
    }
  }

  ghost function Total(writes: seq<Write>): nat {
    if writes == [] then 0
    else Total(writes[..|writes| - 1]) + if writes[|writes| - 1].Took? then writes[|writes| - 1].n else 0
  }

  /** Without write errors, any partial writes that add up to the reply put out exactly all of it. */
  lemma {:induction false} WritesComplete(size: nat, writes: seq<Write>)
    requires Error !in writes
    ensures Written(size, writes) == if Total(writes) < size then Total(writes) else size
  {
    if writes != [] {
      WritesComplete(size, writes[..|writes| - 1]);
    }
  }
}
