/**
  The bounded transfer buffers of src/utils/utils_httpc.c. The network is a stream that hands
  out, and takes, at most what it is asked to, in pieces and with pauses of its own choosing.
 */
module HttpTransfer {
  import opened Wrappers

  const HTTP_CLIENT_SEND_BUF_SIZE: nat := 1024
  const HTTP_CLIENT_READ_BUF_SIZE: nat := 1024
  const HTTP_CLIENT_READ_HEAD_SIZE: nat := 32
  const HTTP_CLIENT_CHUNK_SIZE: nat := 1024

  datatype Ret = SUCCESS_RET | HTTP_RETRIEVE_MORE_DATA | ERR_HTTP_CLOSED | ERR_HTTP_CONN_ERROR | ERR_WRITE

  // ---------- the network ----------

  /** What the next read does: at most n bytes, a timeout (after which the caller may give up), or an error. */
  datatype ReadEvent = Data(n: nat) | Timeout(giveUp: bool) | ReadError

  /** What the next write does: takes at most n bytes, or fails. */
  datatype WriteEvent = Takes(n: nat) | WriteError

  datatype Received = Bytes(data: seq<bv8>) | Nothing(giveUp: bool) | Broken

  function Min(a: int, b: int): int {
    if a < b then a else b
  }

  /** The reader gives up: the connection is broken, or a timeout was one too many. */
  predicate Fails(event: ReadEvent) {
    event == ReadError || event == Timeout(true)
  }

  /** How many of at most `most` bytes an event brings. */
  function Taken(event: ReadEvent, most: nat): nat {
    match event
    case Data(n) => Min(n, most)
    case _ => 0
  }

  class Network {
    var incoming: seq<bv8>
    var arrivals: seq<ReadEvent>
    var sent: seq<bv8>
    var departures: seq<WriteEvent>

    constructor (incoming: seq<bv8>, arrivals: seq<ReadEvent>, departures: seq<WriteEvent>)
      ensures this.incoming == incoming && this.arrivals == arrivals && sent == [] && this.departures == departures
    {
      this.incoming, this.arrivals, this.departures := incoming, arrivals, departures;
      sent := [];
    }

    /** At most max_len bytes off the front of the stream. */
    method Read(max_len: nat) returns (r: Received)
      modifies this`incoming, this`arrivals
      ensures arrivals == if old(arrivals) == [] then [] else old(arrivals)[1..]
      ensures r.Broken? <==> old(arrivals) == [] || old(arrivals)[0] == ReadError
      ensures r == Nothing(true) <==> old(arrivals) != [] && old(arrivals)[0] == Timeout(true)
      ensures var k := if old(arrivals) == [] then 0 else Taken(old(arrivals)[0], Min(max_len, |old(incoming)|));
        && (if k > 0 then r == Bytes(old(incoming)[..k]) else !r.Bytes?)
        && incoming == old(incoming)[k..]
    {
      if |arrivals| == 0 {
        return Broken;
      }
      var event := arrivals[0];
      arrivals := arrivals[1..];
      match event
      case ReadError => r := Broken;
      case Timeout(giveUp) => r := Nothing(giveUp);
      case Data(n) =>
        var k := Min(n, Min(max_len, |incoming|));
        if k == 0 {
          r := Nothing(false);
        } else {
          r := Bytes(incoming[..k]);
          incoming := incoming[k..];
        }
    }

    /** Some bytes off the front of data, or a failure. */
    method Write(data: seq<bv8>) returns (ret: int)
      modifies this`sent, this`departures
      ensures departures == if old(departures) == [] then [] else old(departures)[1..]
      ensures ret == if old(departures) == [] || old(departures)[0] == WriteError then -1
        else Min(old(departures)[0].n, |data|)
      ensures sent == old(sent) + if ret < 0 then [] else data[..ret]
    {
      var event := if |departures| == 0 then WriteError else departures[0];
      departures := if |departures| == 0 then [] else departures[1..];
      match event
      case WriteError => ret := -1;
      case Takes(n) =>
        ret := Min(n, |data|);
        sent := sent + data[..ret];
    }
  }

  // ---------- sending ----------

  /** The bytes before the first zero. */
  function StringBytes(buf: seq<bv8>): (s: seq<bv8>)
    ensures s <= buf && 0 !in s && (|s| < |buf| ==> buf[|s|] == 0)
  {
    if |buf| == 0 || buf[0] == 0 then []
    else
      var rest := StringBytes(buf[1..]);
      assert [buf[0]] + rest <= buf;
      [buf[0]] + rest
  }

  /** What a fill call is to send: len bytes, or the whole string when len is 0. */
  function Input(buf: seq<bv8>, len: nat): seq<bv8>
    requires len <= |buf|
  {
    if len == 0 then StringBytes(buf) else buf[..len]
  }

  /** More data behind what an array already holds. */
  method Append(dst: array<bv8>, at: nat, src: seq<bv8>)
    requires at + |src| <= dst.Length
    modifies dst
    ensures dst[..at + |src|] == old(dst[..at]) + src
    ensures dst[at + |src|..] == old(dst[at + |src|..])
  {
    forall i | 0 <= i < |src| {
      dst[at + i] := src[i];
    }
  }

  /** A whole number of full buffers. */
  predicate WholeBuffers(n: int) {
    n >= 0 && n % HTTP_CLIENT_SEND_BUF_SIZE == 0
  }

  /** What the next write makes of a full buffer: taken whole, or which error. */
  function Answer(departures: seq<WriteEvent>): Ret {
    if |departures| == 0 || departures[0] == WriteError then ERR_WRITE
    else if departures[0].n == 0 then ERR_HTTP_CLOSED
    else if departures[0].n < HTTP_CLIENT_SEND_BUF_SIZE then ERR_HTTP_CONN_ERROR
    else SUCCESS_RET
  }

  /** The next n writes each take a whole buffer. */
  predicate AllTaken(departures: seq<WriteEvent>, n: nat) {
    n <= |departures| && forall i :: 0 <= i < n ==> departures[i].Takes? && departures[i].n >= 1024
  }

  /** How many buffers this many bytes fill. */
  function Buffers(n: nat): nat {
    n / HTTP_CLIENT_SEND_BUF_SIZE
  }

  lemma BuffersAre(n: nat, full: nat, idx: nat)
    requires n == full * HTTP_CLIENT_SEND_BUF_SIZE + idx && idx < HTTP_CLIENT_SEND_BUF_SIZE
    ensures Buffers(n) == full
  {
  }

  lemma TakenMore(departures: seq<WriteEvent>, n: nat)
    requires AllTaken(departures, n)
    ensures Answer(departures[n..]) == SUCCESS_RET <==> AllTaken(departures, n + 1)
    ensures AllTaken(departures, n + 1) ==> n < |departures| && departures[n..][1..] == departures[n + 1..]
  {
    if n < |departures| {
      assert departures[n..][0] == departures[n];
    }
  }

  lemma TakenLess(departures: seq<WriteEvent>, n: nat, m: nat)
    requires AllTaken(departures, n) && m <= n
    ensures AllTaken(departures, m)
  {
  }

  /** The full buffer goes to the network; a short write is an error. */
  method Flush(net: Network, send_buf: array<bv8>) returns (ret: Ret)
    requires send_buf.Length == HTTP_CLIENT_SEND_BUF_SIZE
    modifies net`sent, net`departures
    ensures old(net.sent) <= net.sent <= old(net.sent) + send_buf[..]
    ensures ret == match |net.sent| - |old(net.sent)|
                   case 0 => if ret == ERR_WRITE then ERR_WRITE else ERR_HTTP_CLOSED
                   case 1024 => SUCCESS_RET
                   case _ => ERR_HTTP_CONN_ERROR
    ensures net.departures == if old(net.departures) == [] then [] else old(net.departures)[1..]
    ensures ret == Answer(old(net.departures))
  {
    var r := net.Write(send_buf[..]);
    if r < 0 {
      return ERR_WRITE;
    } else if r != HTTP_CLIENT_SEND_BUF_SIZE {
      return if r == 0 then ERR_HTTP_CLOSED else ERR_HTTP_CONN_ERROR;
    }
    return SUCCESS_RET;
  }

  /**
    On success everything written so far and everything still buffered is, in order, what it was
    before followed by the input, and the buffer is not full.
   */
  method FillTxBuffer(net: Network, send_buf: array<bv8>, send_idx: nat, buf: seq<bv8>, len: nat)
    returns (ret: Ret, new_idx: nat)
    requires send_buf.Length == HTTP_CLIENT_SEND_BUF_SIZE && send_idx < HTTP_CLIENT_SEND_BUF_SIZE && len <= |buf|
    modifies net`sent, net`departures, send_buf
    ensures new_idx < HTTP_CLIENT_SEND_BUF_SIZE
    ensures ret == SUCCESS_RET ==>
      net.sent + send_buf[..new_idx] == old(net.sent) + old(send_buf[..send_idx]) + Input(buf, len)
    ensures ret != SUCCESS_RET ==> new_idx == send_idx
    ensures net.sent <= old(net.sent) + old(send_buf[..send_idx]) + Input(buf, len)
    ensures ret == ERR_HTTP_CLOSED || ret == ERR_WRITE ==> WholeBuffers(|net.sent| - |old(net.sent)|)
    ensures ret == ERR_HTTP_CONN_ERROR ==> !WholeBuffers(|net.sent| - |old(net.sent)|)
    ensures ret != HTTP_RETRIEVE_MORE_DATA && old(net.sent) <= net.sent
    ensures ret == SUCCESS_RET <==> AllTaken(old(net.departures), Buffers(send_idx + |Input(buf, len)|))
    ensures ret == SUCCESS_RET ==>
      net.departures == old(net.departures)[Buffers(send_idx + |Input(buf, len)|)..]
      && new_idx == (send_idx + |Input(buf, len)|) % HTTP_CLIENT_SEND_BUF_SIZE
    ensures ret != SUCCESS_RET ==>
      var n := Buffers(|net.sent| - |old(net.sent)|);
      AllTaken(old(net.departures), n) && ret == Answer(old(net.departures)[n..])
  {
    hide Input, StringBytes, WholeBuffers, Min, AllTaken, Answer, Buffers, Handed;
    var data := Input(buf, len);
    var left := |data|;
    var writen_len := 0;
    var idx := send_idx;
    new_idx := send_idx;
    ghost var before := net.sent + send_buf[..send_idx];
    ghost var full: nat, departures, start := 0, net.departures, |net.sent|;
    NoneTaken(departures);
    assert data[..0] == [];
    while true
      invariant 0 <= writen_len && left == |data| - writen_len && left >= 0 && 0 <= idx < HTTP_CLIENT_SEND_BUF_SIZE
      invariant net.sent + send_buf[..idx] == before + data[..writen_len]
      invariant start <= |net.sent| && Handed(departures, net.departures, full, |net.sent| - start)
      invariant idx + full * 1024 == send_idx + writen_len
      decreases left
    {
      var cp_len := if HTTP_CLIENT_SEND_BUF_SIZE - idx >= left then left else HTTP_CLIENT_SEND_BUF_SIZE - idx;
      Sent(net.sent, send_buf[..idx], before, data, writen_len, cp_len);
      ghost var due := full;
      ret, idx, full := FillPiece(net, send_buf, idx, data[writen_len..writen_len + cp_len], departures, full, start);
      writen_len := writen_len + cp_len;
      left := left - cp_len;
      if ret != SUCCESS_RET {
        Prefixes(net.sent, before, data, writen_len);
        Refused(departures, due, send_idx + |data|, |net.sent| - start);
        return;
      }
      if left == 0 {
        break;
      }
    }
    assert data[..|data|] == data;
    AllHanded(departures, net.departures, full, |net.sent| - start, send_idx + |data|, idx);
    return SUCCESS_RET, idx;
  }

  /** So many full buffers were handed over, and the writes that took them are used up. */
  predicate Handed(departures: seq<WriteEvent>, rest: seq<WriteEvent>, full: nat, sent: nat) {
    AllTaken(departures, full) && full <= |departures| && rest == departures[full..] && sent == full * 1024
  }

  lemma AllHanded(departures: seq<WriteEvent>, rest: seq<WriteEvent>, full: nat, sent: nat, all: nat, idx: nat)
    requires Handed(departures, rest, full, sent) && idx + full * 1024 == all && idx < HTTP_CLIENT_SEND_BUF_SIZE
    ensures Buffers(all) <= |departures| && rest == departures[Buffers(all)..] && AllTaken(departures, Buffers(all))
    ensures idx == all % HTTP_CLIENT_SEND_BUF_SIZE
  {
  }

  /** One piece into the buffer, which goes to the network when the piece fills it. */
  method FillPiece(net: Network, send_buf: array<bv8>, idx: nat, piece: seq<bv8>,
        ghost departures: seq<WriteEvent>, ghost full: nat, ghost start: nat)
    returns (ret: Ret, new_idx: nat, ghost more: nat)
    requires send_buf.Length == HTTP_CLIENT_SEND_BUF_SIZE && idx < HTTP_CLIENT_SEND_BUF_SIZE
      && idx + |piece| <= HTTP_CLIENT_SEND_BUF_SIZE
    requires start <= |net.sent| && Handed(departures, net.departures, full, |net.sent| - start)
    modifies net`sent, net`departures, send_buf
    ensures ret == SUCCESS_RET ==>
      && new_idx < HTTP_CLIENT_SEND_BUF_SIZE
      && net.sent + send_buf[..new_idx] == old(net.sent) + (old(send_buf[..idx]) + piece)
      && start <= |net.sent| && Handed(departures, net.departures, more, |net.sent| - start)
      && new_idx + more * 1024 == idx + |piece| + full * 1024
    ensures old(net.sent) <= net.sent <= old(net.sent) + (old(send_buf[..idx]) + piece)
    ensures ret != SUCCESS_RET ==>
      && full <= |departures|
      && ret == Answer(departures[full..]) && !AllTaken(departures, full + 1) && AllTaken(departures, full)
      && idx + |piece| == HTTP_CLIENT_SEND_BUF_SIZE
      && full * 1024 <= |net.sent| - start < (full + 1) * 1024
      && (ret == ERR_HTTP_CONN_ERROR <==> |net.sent| - start != full * 1024)
    ensures ret != HTTP_RETRIEVE_MORE_DATA
  {
    hide Answer, AllTaken;
    new_idx, more := idx + |piece|, full;
    Append(send_buf, idx, piece);
    ret := SUCCESS_RET;
    if new_idx == HTTP_CLIENT_SEND_BUF_SIZE {
      assert send_buf[..new_idx] == send_buf[..];
      TakenMore(departures, full);
      ret := Flush(net, send_buf);
      if ret == SUCCESS_RET {
        new_idx, more := 0, full + 1;
      }
    }
  }

  lemma NoneTaken(departures: seq<WriteEvent>)
    ensures AllTaken(departures, 0) && Handed(departures, departures, 0, 0)
  {
  }

  /** A write that does not take the buffer that was due. */
  lemma Refused(departures: seq<WriteEvent>, full: nat, all: nat, sent: nat)
    requires !AllTaken(departures, full + 1) && (full + 1) * 1024 <= all && full * 1024 <= sent < (full + 1) * 1024
    ensures !AllTaken(departures, Buffers(all)) && Buffers(sent) == full
    ensures WholeBuffers(sent) <==> sent == full * 1024
  {
    if AllTaken(departures, Buffers(all)) {
      TakenLess(departures, Buffers(all), full + 1);
    }
  }

  lemma Prefixes(sent: seq<bv8>, before: seq<bv8>, data: seq<bv8>, n: nat)
    requires n <= |data| && sent <= before + data[..n]
    ensures sent <= before + data
  {
    assert before + data == before + data[..n] + data[n..];
  }

  lemma Sent(sent: seq<bv8>, start: seq<bv8>, before: seq<bv8>, data: seq<bv8>, n: nat, k: nat)
    requires n + k <= |data| && sent + start == before + data[..n]
    ensures sent + (start + data[n..n + k]) == before + data[..n + k]
  {
    assert data[..n + k] == data[..n] + data[n..n + k];
    assert sent + (start + data[n..n + k]) == sent + start + data[n..n + k];
  }

  /** The arguments of one fill call. */
  datatype FillArgs = FillArgs(buf: seq<bv8>, len: nat)

  type Fill = f: FillArgs | f.len <= |f.buf| witness FillArgs([], 0)

  /** What a run of fill calls is to send: byte ranges and strings, empty ones too. */
  function Inputs(fills: seq<Fill>): seq<bv8> {
    if |fills| == 0 then []
    else Inputs(fills[..|fills| - 1]) + Input(fills[|fills| - 1].buf, fills[|fills| - 1].len)
  }

  /** Any number of successful fill calls: what is written and what is buffered is all the inputs in order. */
  method FillAll(net: Network, send_buf: array<bv8>, fills: seq<Fill>) returns (ret: Ret, idx: nat)
    requires send_buf.Length == HTTP_CLIENT_SEND_BUF_SIZE
    modifies net`sent, net`departures, send_buf
    ensures idx < HTTP_CLIENT_SEND_BUF_SIZE
    ensures ret == SUCCESS_RET ==> net.sent + send_buf[..idx] == old(net.sent) + Inputs(fills)
    ensures net.sent <= old(net.sent) + Inputs(fills)
    ensures ret == SUCCESS_RET <==> AllTaken(old(net.departures), Buffers(|Inputs(fills)|))
  {
    hide Inputs, Input, AllTaken, Buffers, Answer;
    idx := 0;
    ghost var departures, full: nat := net.departures, 0;
    NoneTaken(departures);
    InputsNone(fills);
    for i := 0 to |fills|
      invariant idx < HTTP_CLIENT_SEND_BUF_SIZE
      invariant net.sent + send_buf[..idx] == old(net.sent) + Inputs(fills[..i])
      invariant AllTaken(departures, full) && full <= |departures| && net.departures == departures[full..]
      invariant |Inputs(fills[..i])| == full * 1024 + idx
    {
      InputsMore(fills, i);
      ghost var due := idx + |Input(fills[i].buf, fills[i].len)|;
      TakenFrom(departures, full, Buffers(due));
      BuffersMore(full, due, |Inputs(fills)|);
      ret, idx := FillTxBuffer(net, send_buf, idx, fills[i].buf, fills[i].len);
      Joined(old(net.sent), Inputs(fills[..i]), Input(fills[i].buf, fills[i].len), Inputs(fills[..i + 1]));
      if ret != SUCCESS_RET {
        StillPrefix(net.sent, old(net.sent), Inputs(fills[..i + 1]), Inputs(fills));
        return;
      }
      full := full + Buffers(due);
    }
    ret := SUCCESS_RET;
    BuffersAre(|Inputs(fills)|, full, idx);
    BufferAside(net.sent, send_buf[..idx], old(net.sent) + Inputs(fills));
  }

  lemma TakenFrom(departures: seq<WriteEvent>, full: nat, n: nat)
    requires AllTaken(departures, full)
    ensures AllTaken(departures[full..], n) <==> AllTaken(departures, full + n)
    ensures AllTaken(departures[full..], n) ==>
      full + n <= |departures| && departures[full..][n..] == departures[full + n..]
    ensures forall m: nat :: m <= full ==> AllTaken(departures, m)
    ensures !AllTaken(departures, full + n) ==> forall m: nat :: m >= full + n ==> !AllTaken(departures, m)
  {
    if AllTaken(departures[full..], n) {
      forall i | 0 <= i < full + n
        ensures departures[i].Takes? && departures[i].n >= 1024
      {
        if i >= full {
          assert departures[i] == departures[full..][i - full];
        }
      }
    }
  }

  lemma BuffersMore(full: nat, due: nat, all: nat)
    ensures due == Buffers(due) * 1024 + due % 1024
    ensures full * 1024 + due <= all ==> Buffers(all) >= full + Buffers(due)
  {
  }

  lemma Joined(start: seq<bv8>, done: seq<bv8>, input: seq<bv8>, more: seq<bv8>)
    requires more == done + input
    ensures start + done + input == start + more
  {
  }

  lemma StillPrefix(sent: seq<bv8>, start: seq<bv8>, part: seq<bv8>, all: seq<bv8>)
    requires sent <= start + part && part <= all
    ensures sent <= start + all
  {
  }

  lemma BufferAside(sent: seq<bv8>, waiting: seq<bv8>, all: seq<bv8>)
    requires sent + waiting == all
    ensures sent <= all
  {
  }

  lemma InputsNone(fills: seq<Fill>)
    ensures Inputs(fills[..0]) == [] && fills[..|fills|] == fills
  {
  }

  /** What is sent up to one call is a beginning of everything. */
  lemma {:induction false} InputsMore(fills: seq<Fill>, i: nat)
    requires i < |fills|
    ensures Inputs(fills[..i + 1]) == Inputs(fills[..i]) + Input(fills[i].buf, fills[i].len)
    ensures Inputs(fills[..i + 1]) <= Inputs(fills)
    decreases |fills| - i
  {
    hide Input;
    assert fills[..i + 1][..i] == fills[..i];
    if i + 1 < |fills| {
      InputsMore(fills, i + 1);
    } else {
      assert fills[..i + 1] == fills;
    }
  }

  // ---------- receiving ----------

  /** Taking the front off what is pending. */
  lemma Pieces(pending: seq<bv8>, c: nat, count: nat, data: seq<bv8>, incoming: seq<bv8>)
    requires c <= count <= |pending| && pending[c..] == data + incoming && count - c <= |data|
    ensures pending[..count] == pending[..c] + data[..count - c]
    ensures pending[count..] == data[count - c..] + incoming
  {
    assert pending[count..] == pending[c..][count - c..];
    assert pending[..count] == pending[..c] + pending[c..][..count - c];
  }

  // ---------- how far one call gets ----------

  /** What one read is bounded by: the data buffer, the room left, the body still to come and what there is. */
  function Most(space: nat, need: nat, have: nat): nat {
    Min(Min(HTTP_CLIENT_CHUNK_SIZE - 1, space), Min(need, have))
  }

  /** How a call ends, with how many bytes in the response buffer and which events still to come. */
  datatype Ending = Ending(ret: Ret, count: nat, events: seq<ReadEvent>)

  /**
    How a call goes on when `count` bytes are in a buffer with this much room, `need` more belong to
    the body and `have` are on the network.
   */
  function Goes(events: seq<ReadEvent>, have: nat, need: nat, room: nat, count: nat): Ending {
    if count >= room then Ending(HTTP_RETRIEVE_MORE_DATA, room, events)
    else if need == 0 then Ending(SUCCESS_RET, count, events)
    else if |events| == 0 then Ending(ERR_HTTP_CONN_ERROR, count, [])
    else if Fails(events[0]) then Ending(ERR_HTTP_CONN_ERROR, count, events[1..])
    else
      var k := Taken(events[0], Most(room - count, need, have));
      Goes(events[1..], have - k, need - k, room, count + k)
  }

  lemma GoesOn(events: seq<ReadEvent>, have: nat, need: nat, room: nat, count: nat)
    ensures var end := Goes(events, have, need, room, count);
      && (count >= room ==> end == Ending(HTTP_RETRIEVE_MORE_DATA, room, events))
      && (count < room && need == 0 ==> end == Ending(SUCCESS_RET, count, events))
      && (count < room && need > 0 ==>
        var rest := if events == [] then [] else events[1..];
        end ==
          if events == [] || Fails(events[0]) then Ending(ERR_HTTP_CONN_ERROR, count, rest)
          else
            var k := Taken(events[0], Most(room - count, need, have));
            Goes(rest, have - k, need - k, room, count + k))
  {
  }

  /** Of the events so far only the last may be a failure, and a call that failed met one or ran out of events. */
  ghost predicate StoppedBy(events: seq<ReadEvent>, rest: seq<ReadEvent>, failed: bool) {
    var c := |events| - |rest|;
    && c >= 0 && rest == events[c..]
    && (forall i :: 0 <= i < c && Fails(events[i]) ==> failed && i == c - 1)
    && (failed ==> |rest| == 0 || (c > 0 && Fails(events[c - 1])))
  }

  /** Events came to their end, or the last one consumed was a failure. */
  ghost predicate LastFailed(events: seq<ReadEvent>, rest: seq<ReadEvent>) {
    |rest| == 0 || (|rest| < |events| && Fails(events[|events| - |rest| - 1]))
  }

  /** The same for the events from the first call on. */
  lemma StoppedLater(events: seq<ReadEvent>, from: seq<ReadEvent>, rest: seq<ReadEvent>, failed: bool)
    requires |from| <= |events| && from == events[|events| - |from|..] && StoppedBy(from, rest, failed)
    ensures |rest| <= |events| && rest == events[|events| - |rest|..]
    ensures failed ==> LastFailed(events, rest)
  {
    hide Fails;
    var c := |from| - |rest|;
    assert rest == from[c..] == events[|events| - |from|..][c..];
  }

  lemma RoomToCover(events: seq<ReadEvent>, have: nat, need: nat, room: nat, count: nat)
    requires Covers(events, have, need, room, count)
    ensures room > 0
  {
  }

  lemma StoppedAtOnce(events: seq<ReadEvent>)
    ensures StoppedBy(events, events, false)
    ensures |events| == 0 ==> StoppedBy(events, [], true)
    ensures |events| > 0 && Fails(events[0]) ==> StoppedBy(events, events[1..], true)
  {
    hide Fails;
  }

  lemma StoppedBehind(events: seq<ReadEvent>, rest: seq<ReadEvent>, failed: bool)
    requires |events| > 0 && !Fails(events[0]) && StoppedBy(events[1..], rest, failed)
    ensures StoppedBy(events, rest, failed)
  {
    hide Fails;
    var c := |events| - |rest|;
    forall i | 0 <= i < c && Fails(events[i])
      ensures failed && i == c - 1
    {
      assert events[i] == events[1..][i - 1];
    }
  }

  lemma TakenWithin(event: ReadEvent, space: nat, need: nat, have: nat)
    ensures var k := Taken(event, Most(space, need, have)); k <= space && k <= need && k <= have
  {
  }

  lemma CoversOn(events: seq<ReadEvent>, have: nat, need: nat, room: nat, count: nat)
    ensures Covers(events, have, need, room, count) <==>
      if count >= room then room > 0 && Covers(events, have, need, room, 0)
      else if need == 0 then true
      else if |events| == 0 || Fails(events[0]) then false
      else
        var k := Taken(events[0], Most(room - count, need, have));
        Covers(events[1..], have - k, need - k, room, count + k)
  {
    hide Fails, Taken, Most;
    if count < room && need > 0 && |events| > 0 {
      TakenWithin(events[0], room - count, need, have);
    }
  }

  lemma {:induction false} FailsOnlyByEvents(events: seq<ReadEvent>, have: nat, need: nat, room: nat, count: nat)
    ensures var end := Goes(events, have, need, room, count);
      && StoppedBy(events, end.events, end.ret == ERR_HTTP_CONN_ERROR)
      && (end.ret == SUCCESS_RET || end.ret == HTTP_RETRIEVE_MORE_DATA || end.ret == ERR_HTTP_CONN_ERROR)
    decreases |events|
  {
    hide Goes, StoppedBy, Taken, Most, Fails;
    GoesOn(events, have, need, room, count);
    StoppedAtOnce(events);
    if count < room && need > 0 && |events| > 0 && !Fails(events[0]) {
      var k := Taken(events[0], Most(room - count, need, have));
      TakenWithin(events[0], room - count, need, have);
      FailsOnlyByEvents(events[1..], have - k, need - k, room, count + k);
      var end := Goes(events, have, need, room, count);
      StoppedBehind(events, end.events, end.ret == ERR_HTTP_CONN_ERROR);
    }
  }

  /** The events bring all of the body, with the buffer emptied whenever it is full. */
  predicate Covers(events: seq<ReadEvent>, have: nat, need: nat, room: nat, count: nat)
    decreases |events|, count
  {
    if count >= room then room > 0 && Covers(events, have, need, room, 0)
    else if need == 0 then true
    else if |events| == 0 || Fails(events[0]) then false
    else
      var k := Taken(events[0], Most(room - count, need, have));
      Covers(events[1..], have - k, need - k, room, count + k)
  }

  /** One call out of those that bring the body: the last succeeds, and every other one fills the buffer. */
  lemma {:induction false} CoveredByCalls(events: seq<ReadEvent>, have: nat, need: nat, room: nat, count: nat)
    requires count <= room
    ensures var end := Goes(events, have, need, room, count);
      var n := end.count - count;
      && 0 <= n <= need && n <= have
      && (end.ret == SUCCESS_RET || end.ret == HTTP_RETRIEVE_MORE_DATA || end.ret == ERR_HTTP_CONN_ERROR)
      && (end.ret == SUCCESS_RET ==> n == need && Covers(events, have, need, room, count))
      && (end.ret == ERR_HTTP_CONN_ERROR ==> !Covers(events, have, need, room, count))
      && (end.ret == HTTP_RETRIEVE_MORE_DATA && room > 0 ==>
        end.count == room
        && (Covers(events, have, need, room, count) <==> Covers(end.events, have - n, need - n, room, 0)))
    decreases |events|
  {
    hide Goes, Covers, Taken, Most, Fails;
    GoesOn(events, have, need, room, count);
    CoversOn(events, have, need, room, count);
    if count < room && need > 0 && |events| > 0 && !Fails(events[0]) {
      var k := Taken(events[0], Most(room - count, need, have));
      TakenWithin(events[0], room - count, need, have);
      CoveredByCalls(events[1..], have - k, need - k, room, count + k);
    }
  }

  predicate AllBring(events: seq<ReadEvent>) {
    forall i :: 0 <= i < |events| ==> events[i].Data? && events[i].n > 0
  }

  /** As many events as bytes, each with something: enough for any buffer. */
  lemma {:induction false} EnoughEvents(events: seq<ReadEvent>, have: nat, need: nat, room: nat, count: nat)
    requires AllBring(events) && need <= |events| && need <= have && count <= room && room > 0
    ensures Covers(events, have, need, room, count)
    decreases |events|, count
  {
    if count >= room {
      EnoughEvents(events, have, need, room, 0);
    } else if need > 0 {
      var k := Taken(events[0], Most(room - count, need, have));
      EnoughEvents(events[1..], have - k, need - k, room, count + k);
    }
  }

  function Brought(events: seq<ReadEvent>): nat {
    if |events| == 0 then 0 else (if events[0].Data? then events[0].n else 0) + Brought(events[1..])
  }

  /** A body that fits in the buffer, and events no larger than the data buffer that bring it. */
  lemma {:induction false} EnoughBrought(events: seq<ReadEvent>, have: nat, need: nat, room: nat, count: nat)
    requires AllBring(events) && (forall i :: 0 <= i < |events| ==> events[i].n < HTTP_CLIENT_CHUNK_SIZE)
    requires need <= Brought(events) && need <= have && count + need < room
    ensures Covers(events, have, need, room, count)
    ensures Goes(events, have, need, room, count).ret == SUCCESS_RET
  {
    if need > 0 {
      var k := Taken(events[0], Most(room - count, need, have));
      EnoughBrought(events[1..], have - k, need - k, room, count + k);
    }
  }

  class HttpClientData {
    var is_more: bool
    var is_chunked: bool
    var retrieve_len: int
    var response_content_len: int
    const response_buf_len: nat
    const response_buf: array<bv8>

    ghost predicate Valid()
      reads this
    {
      && 1 <= response_buf_len <= response_buf.Length
      && retrieve_len >= 0
    }

    constructor (response_buf: array<bv8>, response_buf_len: nat)
      requires 1 <= response_buf_len <= response_buf.Length
      ensures Valid() && this.response_buf == response_buf && this.response_buf_len == response_buf_len && !is_more
    {
      this.response_buf, this.response_buf_len := response_buf, response_buf_len;
      is_more, is_chunked, retrieve_len, response_content_len := false, false, 0, 0;
    }

    /** Room for data before the terminator. */
    function Room(): int {
      response_buf_len - 1
    }

    /**
      The first bytes of data go behind the `count` already there: all of them while they leave room,
      otherwise as many as fit.
     */
    method FillRxBuf(count: nat, n: nat, data: seq<bv8>) returns (ret: Ret, new_count: nat)
      requires Valid() && n <= |data| && n <= retrieve_len && count <= Room()
      modifies this`retrieve_len, response_buf
      ensures Valid() && ret == if count + n < Room() then SUCCESS_RET else HTTP_RETRIEVE_MORE_DATA
      ensures new_count == if ret == SUCCESS_RET then count + n else Room()
      ensures count <= new_count && new_count - count <= n
      ensures retrieve_len == old(retrieve_len) - (new_count - count)
      ensures response_buf[..new_count] == old(response_buf[..count]) + data[..new_count - count]
      ensures response_buf[new_count] == 0
    {
      if count + n < response_buf_len - 1 {
        Append(response_buf, count, data[..n]);
        new_count := count + n;
        response_buf[new_count] := 0;
        retrieve_len := retrieve_len - n;
        ret := SUCCESS_RET;
      } else {
        Append(response_buf, count, data[..response_buf_len - 1 - count]);
        new_count := response_buf_len - 1;
        response_buf[new_count] := 0;
        retrieve_len := retrieve_len - (response_buf_len - 1 - count);
        ret := HTTP_RETRIEVE_MORE_DATA;
      }
    }

    /** What a receive call hands over, with nothing lost or repeated: the front of what was still to come. */
    ghost predicate Received(count: nat, pending: seq<bv8>, incoming: seq<bv8>)
      reads response_buf
    {
      && 1 <= response_buf_len <= response_buf.Length && count <= Room()
      && count <= |pending| && response_buf[..count] == pending[..count]
      && incoming == pending[count..]
    }

    /**
      Of the bytes in hand and those on the network nothing is lost exactly when the ones in hand leave
      room for the terminator; otherwise those that fit are delivered and the network is not read.
     */
    ghost predicate Delivers(count: nat, inHand: seq<bv8>, before: seq<bv8>, incoming: seq<bv8>)
      reads response_buf
    {
      && (Received(count, inHand + before, incoming) <==> |inHand| <= Room())
      && (|inHand| > Room() ==>
        count == Room() < response_buf.Length && response_buf[..count] == inHand[..count] && incoming == before)
    }

    /** One read of at most as many bytes as the body, the response buffer and the data buffer allow. */
    method ReceiveChunk(net: Network, data: array<bv8>, count: nat) returns (ok: bool, n: nat)
      requires Valid() && count < Room() && retrieve_len > 0
      requires data.Length == HTTP_CLIENT_READ_BUF_SIZE && data != response_buf
      modifies net`incoming, net`arrivals, data
      ensures n <= retrieve_len && n <= Room() - count && n <= data.Length
      ensures old(net.incoming) == data[..n] + net.incoming
      ensures net.arrivals == if old(net.arrivals) == [] then [] else old(net.arrivals)[1..]
      ensures ok <==> old(net.arrivals) != [] && !Fails(old(net.arrivals)[0])
      ensures ok && old(net.arrivals)[0].Data? ==>
        var k := old(net.arrivals)[0].n;
        && n <= k && n <= 1023 && n <= |old(net.incoming)|
        && (n == k || n == 1023 || n == Room() - count || n == retrieve_len || n == |old(net.incoming)|)
      ensures n ==
        if ok then Taken(old(net.arrivals)[0], Most(Room() - count, retrieve_len, |old(net.incoming)|)) else 0
    {
      n := 0;
      var max_len_to_receive := Min(HTTP_CLIENT_CHUNK_SIZE - 1, response_buf_len - 1 - count);
      max_len_to_receive := Min(max_len_to_receive, retrieve_len);
      var received := net.Read(max_len_to_receive);
      match received
      case Broken => ok := false;
      case Nothing(giveUp) => ok := !giveUp;
      case Bytes(bytes) =>
        assert data[..0] == [];
        Append(data, 0, bytes);
        ok, n := true, |bytes|;
    }

    /** What is in the response buffer and what is still to come, in the data buffer and on the network. */
    ghost predicate Holding(count: nat, pending: seq<bv8>, data: seq<bv8>, incoming: seq<bv8>)
      reads response_buf
    {
      && 1 <= response_buf_len <= response_buf.Length && count <= Room() && count <= |pending|
      && response_buf[..count] == pending[..count] && pending[count..] == data + incoming
    }

    lemma HoldingMore(count: nat, pending: seq<bv8>, incoming: seq<bv8>, data: seq<bv8>, rest: seq<bv8>)
      requires Holding(count, pending, [], incoming) && incoming == data + rest
      ensures Holding(count, pending, data, rest)
    {
    }

    /** The bytes in the data buffer go to the response buffer, as far as there is room. */
    method Move(data: array<bv8>, count0: nat, m: nat, ghost pending: seq<bv8>, ghost incoming: seq<bv8>)
      returns (r: Ret, count: nat)
      requires Valid() && data != response_buf && m <= data.Length && m <= retrieve_len
      requires Holding(count0, pending, data[..m], incoming)
      modifies this`retrieve_len, response_buf
      ensures Valid() && retrieve_len == old(retrieve_len) - (count - count0) && count0 <= count <= Room()
        && response_buf[count] == 0
      ensures r == if count0 + m < Room() then SUCCESS_RET else HTTP_RETRIEVE_MORE_DATA
      ensures count == if r == SUCCESS_RET then count0 + m else Room()
      ensures r == SUCCESS_RET ==> Holding(count, pending, [], incoming)
      ensures Received(count, pending, incoming) <==> m <= Room() - count0
      ensures count <= |pending| && response_buf[..count] == pending[..count]
    {
      hide Received;
      ghost var kept := if m <= Room() - count0 then m else Room() - count0;
      ghost var bytes := data[..m];
      Pieces(pending, count0, count0 + kept, bytes, incoming);
      r, count := FillRxBuf(count0, m, data[..]);
      assert data[..][..kept] == bytes[..kept];
      assert Holding(count, pending, bytes[kept..], incoming);
      Done(count, pending, bytes[kept..], incoming);
    }

    /** With the data buffer used up and bytes still missing it is filled again, unless the network fails. */
    method Refill(net: Network, data: array<bv8>, count: nat, ghost pending: seq<bv8>) returns (ok: bool, n: nat)
      requires Valid() && data.Length == HTTP_CLIENT_READ_BUF_SIZE && data != response_buf
      requires count < Room() && retrieve_len > 0 && Holding(count, pending, [], net.incoming)
      modifies data, net`incoming, net`arrivals
      ensures n <= retrieve_len && n <= Room() - count && n <= data.Length
      ensures Holding(count, pending, data[..n], net.incoming)
      ensures if ok then |net.arrivals| < |old(net.arrivals)| else n == 0
      ensures Goes(old(net.arrivals), |old(net.incoming)|, retrieve_len, Room(), count) ==
        if ok then Goes(net.arrivals, |net.incoming|, retrieve_len - n, Room(), count + n)
        else Ending(ERR_HTTP_CONN_ERROR, count, net.arrivals)
    {
      hide Goes, Taken, Most, Fails, Min;
      ghost var incoming := net.incoming;
      GoesOn(net.arrivals, |net.incoming|, retrieve_len, Room(), count);
      ok, n := ReceiveChunk(net, data, count);
      HoldingMore(count, pending, incoming, data[..n], net.incoming);
    }

    /** One turn of the loop: None when there is more to do. */
    method Turn(net: Network, data: array<bv8>, count0: nat, n0: nat, ghost pending: seq<bv8>)
      returns (ret: Option<Ret>, count: nat, n: nat)
      requires Valid() && data.Length == HTTP_CLIENT_READ_BUF_SIZE && data != response_buf && n0 <= data.Length
      requires Holding(count0, pending, data[..Min(n0, retrieve_len)], net.incoming)
      modifies this`retrieve_len, response_buf, data, net`incoming, net`arrivals
      ensures Valid() && retrieve_len == old(retrieve_len) - (count - count0) && count0 <= count <= Room()
        && response_buf[count] == 0
      ensures ret == Some(HTTP_RETRIEVE_MORE_DATA) ==> count == Room() && net.incoming == old(net.incoming)
      ensures ret != Some(HTTP_RETRIEVE_MORE_DATA) ==> count0 + Min(n0, old(retrieve_len)) < Room()
      ensures ret.Some? ==> (Received(count, pending, net.incoming) <==> Min(n0, old(retrieve_len)) <= Room() - count0)
      ensures ret.Some? ==> count <= |pending| && response_buf[..count] == pending[..count]
      ensures ret == Some(SUCCESS_RET) ==> retrieve_len == 0
      ensures ret == Some(ERR_HTTP_CONN_ERROR) ==> retrieve_len > 0
      ensures ret == None ==>
        && 0 < retrieve_len && n <= retrieve_len && n <= Room() - count && n <= data.Length
        && Holding(count, pending, data[..n], net.incoming) && |net.arrivals| < |old(net.arrivals)|
      ensures var m := Min(n0, old(retrieve_len));
        Goes(old(net.arrivals), |old(net.incoming)|, old(retrieve_len) - m, Room(), count0 + m) ==
          if ret.Some? then Ending(ret.value, count, net.arrivals)
          else Goes(net.arrivals, |net.incoming|, retrieve_len - n, Room(), count + n)
      ensures ret.Some? ==>
        ret.value == SUCCESS_RET || ret.value == HTTP_RETRIEVE_MORE_DATA || ret.value == ERR_HTTP_CONN_ERROR
    {
      hide Goes, Taken, Most, Fails, Min, Received, Holding;
      MinBounds(n0, retrieve_len);
      n := 0;
      var len_to_write := Min(n0, retrieve_len);
      GoesOn(net.arrivals, |net.incoming|, retrieve_len - len_to_write, Room(), count0 + len_to_write);
      var r;
      r, count := Move(data, count0, len_to_write, pending, net.incoming);
      if r == HTTP_RETRIEVE_MORE_DATA {
        return Some(r), count, 0;
      }
      if retrieve_len == 0 {
        return Some(SUCCESS_RET), count, 0;
      }
      var ok;
      ok, n := Refill(net, data, count, pending);
      if !ok {
        Done(count, pending, data[..0], net.incoming);
        return Some(ERR_HTTP_CONN_ERROR), count, 0;
      }
      ret := None;
    }

    /** The turns until the call ends. */
    method Turns(net: Network, data: array<bv8>, received: nat, ghost pending: seq<bv8>)
      returns (ret: Ret, count: nat)
      requires Valid() && data.Length == HTTP_CLIENT_READ_BUF_SIZE && data != response_buf && received <= data.Length
      requires pending == data[..Min(received, retrieve_len)] + net.incoming
      modifies this`retrieve_len, response_buf, data, net`incoming, net`arrivals
      ensures Valid() && retrieve_len == old(retrieve_len) - count && count <= Room() && response_buf[count] == 0
      ensures var m := Min(received, old(retrieve_len));
        && Delivers(count, old(data[..m]), old(net.incoming), net.incoming)
        && Ending(ret, count, net.arrivals)
          == Goes(old(net.arrivals), |old(net.incoming)|, old(retrieve_len) - m, Room(), m)
      ensures ret == SUCCESS_RET ==> retrieve_len == 0
      ensures ret == HTTP_RETRIEVE_MORE_DATA ==> count == Room()
      ensures ret != SUCCESS_RET && ret != HTTP_RETRIEVE_MORE_DATA ==> ret == ERR_HTTP_CONN_ERROR && retrieve_len > 0
    {
      hide Received, Holding, Min, Goes;
      MinBounds(received, retrieve_len);
      ghost var m := Min(received, retrieve_len);
      ghost var ending := Goes(net.arrivals, |net.incoming|, retrieve_len - m, Room(), m);
      HoldingAll(data[..m], net.incoming);
      var r;
      var n: nat;
      r, count, n := Turn(net, data, 0, received, pending);
      assert m >= count ==> pending[..count] == old(data[..count]);
      while r == None
        invariant Valid() && count <= Room() && retrieve_len == old(retrieve_len) - count && response_buf[count] == 0
        invariant r == None ==> retrieve_len > 0 && n <= retrieve_len && n <= Room() - count && n <= data.Length
        invariant r == None ==> Holding(count, pending, data[..n], net.incoming)
        invariant ending == if r.Some? then Ending(r.value, count, net.arrivals)
          else Goes(net.arrivals, |net.incoming|, retrieve_len - n, Room(), count + n)
        invariant r.Some? ==>
          r.value == SUCCESS_RET || r.value == HTTP_RETRIEVE_MORE_DATA || r.value == ERR_HTTP_CONN_ERROR
        invariant r == Some(HTTP_RETRIEVE_MORE_DATA) ==> count == Room()
        invariant r == Some(SUCCESS_RET) ==> retrieve_len == 0
        invariant r == Some(ERR_HTTP_CONN_ERROR) ==> retrieve_len > 0
        invariant r.Some? ==> (Received(count, pending, net.incoming) <==> m <= Room())
        invariant m > Room() ==>
          r.Some? && count == Room() && response_buf[..count] == old(data[..count]) && net.incoming == old(net.incoming)
        decreases if r == None then 1 else 0, |net.arrivals|
      {
        MinBounds(n, retrieve_len);
        r, count, n := Turn(net, data, count, n, pending);
      }
      ret := r.value;
    }

    /**
      Bytes already read go to the response buffer first, then bytes from the network until the
      buffer is full, the body is complete or the network fails. Nothing is lost exactly when the
      bytes already read leave room for the terminator.
     */
    method GetResponseBody(net: Network, data: array<bv8>, received: nat) returns (ret: Ret, count: nat)
      requires Valid() && data != response_buf && received <= data.Length == HTTP_CLIENT_READ_BUF_SIZE
      modifies this`is_more, this`retrieve_len, response_buf, data, net`incoming, net`arrivals
      ensures Valid() && retrieve_len == old(retrieve_len) - count && count <= Room()
      ensures response_content_len == -1 && !is_chunked ==>
        ret == ERR_HTTP_CONN_ERROR && count == 0 && is_more && response_buf[..] == old(response_buf[..])
          && net.incoming == old(net.incoming)
      ensures response_content_len != -1 || is_chunked ==>
        var m := Min(received, old(retrieve_len));
        && Delivers(count, old(data[..m]), old(net.incoming), net.incoming)
        && count < response_buf.Length && response_buf[count] == 0
        && (ret == SUCCESS_RET ==> retrieve_len == 0 && !is_more)
        && (ret == HTTP_RETRIEVE_MORE_DATA ==> count == Room() && is_more)
        && (ret != SUCCESS_RET && ret != HTTP_RETRIEVE_MORE_DATA ==>
          ret == ERR_HTTP_CONN_ERROR && retrieve_len > 0 && is_more)
      ensures response_content_len != -1 || is_chunked ==>
        var m := Min(received, old(retrieve_len));
        && Ending(ret, count, net.arrivals)
          == Goes(old(net.arrivals), |old(net.incoming)|, old(retrieve_len) - m, Room(), m)
        && StoppedBy(old(net.arrivals), net.arrivals, ret == ERR_HTTP_CONN_ERROR)
    {
      hide Delivers, Min, Goes, StoppedBy;
      is_more := true;
      count := 0;
      if response_content_len == -1 && !is_chunked {
        return ERR_HTTP_CONN_ERROR, 0;
      }
      MinBounds(received, retrieve_len);
      ghost var m := Min(received, retrieve_len);
      FailsOnlyByEvents(net.arrivals, |net.incoming|, retrieve_len - m, Room(), m);
      ret, count := Turns(net, data, received, data[..m] + net.incoming);
      if ret == SUCCESS_RET {
        is_more := false;
      }
    }

    /** Where the body begins: its length is known and `len` of its bytes came with the header. */
    method StartBody(net: Network, data: array<bv8>, len: nat, content_len: nat) returns (ret: Ret, count: nat)
      requires Valid() && data != response_buf && len <= data.Length == HTTP_CLIENT_READ_BUF_SIZE
      modifies this, response_buf, data, net`incoming, net`arrivals
      ensures Valid() && response_content_len == content_len && !is_chunked && retrieve_len == content_len - count
      ensures count <= Room()
      ensures Delivers(count, old(data[..Min(len, content_len)]), old(net.incoming), net.incoming)
      ensures ret == SUCCESS_RET ==> retrieve_len == 0
      ensures is_more <==> ret != SUCCESS_RET
      ensures var m := Min(len, content_len);
        && Ending(ret, count, net.arrivals)
          == Goes(old(net.arrivals), |old(net.incoming)|, content_len - m, Room(), m)
        && StoppedBy(old(net.arrivals), net.arrivals, ret == ERR_HTTP_CONN_ERROR)
    {
      hide Delivers, Min, Goes, StoppedBy;
      is_more := true;
      is_chunked := false;
      response_content_len := content_len;
      retrieve_len := response_content_len;
      ret, count := GetResponseBody(net, data, len);
    }

    /** _http_client_recv_response after the first call: the next part of the body, into the buffer anew. */
    method RecvMore(net: Network) returns (ret: Ret, count: nat)
      requires Valid() && is_more && response_content_len != -1
      modifies this`is_more, this`retrieve_len, response_buf, net`incoming, net`arrivals
      ensures Valid() && retrieve_len == old(retrieve_len) - count && count <= Room()
      ensures Received(count, old(net.incoming), net.incoming)
      ensures ret == SUCCESS_RET ==> retrieve_len == 0
      ensures ret == HTTP_RETRIEVE_MORE_DATA ==> count == Room()
      ensures is_more <==> ret != SUCCESS_RET
      ensures Ending(ret, count, net.arrivals)
        == Goes(old(net.arrivals), |old(net.incoming)|, old(retrieve_len), Room(), 0)
      ensures StoppedBy(old(net.arrivals), net.arrivals, ret == ERR_HTTP_CONN_ERROR)
    {
      hide Goes, StoppedBy, Received, Min, Delivers;
      MinOfNone(retrieve_len);
      response_buf[0] := 0;
      var buf := new bv8[HTTP_CLIENT_READ_BUF_SIZE];
      ghost var before := net.incoming;
      assert buf[..0] == [];
      ret, count := GetResponseBody(net, buf, 0);
      NothingInHand(count, before, net.incoming);
    }

    /** One further receive call, seen from the first one's events on. */
    method RecvPart(net: Network, ghost events: seq<ReadEvent>) returns (ret: Ret, part: seq<bv8>)
      requires Valid() && is_more && response_content_len != -1
      requires |net.arrivals| <= |events| && net.arrivals == events[|events| - |net.arrivals|..]
      modifies this`is_more, this`retrieve_len, response_buf, net`incoming, net`arrivals
      ensures Valid() && retrieve_len == old(retrieve_len) - |part| && part + net.incoming == old(net.incoming)
      ensures |net.arrivals| <= |events| && net.arrivals == events[|events| - |net.arrivals|..]
      ensures ret == ERR_HTTP_CONN_ERROR ==> LastFailed(events, net.arrivals)
      ensures ret == SUCCESS_RET ==> retrieve_len == 0
      ensures is_more <==> ret != SUCCESS_RET
      ensures Room() > 0 && Covers(old(net.arrivals), |old(net.incoming)|, old(retrieve_len), Room(), 0) ==>
        ret == SUCCESS_RET
        || (ret == HTTP_RETRIEVE_MORE_DATA && |part| == Room()
          && Covers(net.arrivals, |net.incoming|, retrieve_len, Room(), 0))
    {
      hide Goes, Covers, StoppedBy, LastFailed, Received;
      ghost var left, before := net.arrivals, net.incoming;
      var count;
      CoveredByCalls(left, |net.incoming|, retrieve_len, Room(), 0);
      ret, count := RecvMore(net);
      DeliveredFirst(before, count, net.incoming);
      StoppedLater(events, left, net.arrivals, ret == ERR_HTTP_CONN_ERROR);
      part := response_buf[..count];
    }

    /**
      Any number of receive calls over one body. What they deliver and what is left on the network
      are together the body bytes that were still to come, exactly when the bytes that came with the
      header leave room for the terminator; a buffer of 32 bytes always does. Delivered and missing
      bytes always add up to the content length.
     */
    method ReceiveAll(net: Network, data: array<bv8>, len: nat, content_len: nat, calls: nat)
      returns (ret: Ret, delivered: seq<bv8>)
      requires Valid() && data != response_buf && len <= data.Length == HTTP_CLIENT_READ_BUF_SIZE
      modifies this, response_buf, data, net`incoming, net`arrivals
      ensures retrieve_len >= 0 && |delivered| + retrieve_len == content_len
      ensures var m := Min(len, content_len);
        delivered + net.incoming == old(data[..m]) + old(net.incoming) <==> m <= Room()
      ensures len < HTTP_CLIENT_READ_HEAD_SIZE <= response_buf_len ==>
        delivered + net.incoming == old(data[..Min(len, content_len)]) + old(net.incoming)
      ensures ret == SUCCESS_RET ==> |delivered| == content_len
      ensures ret == ERR_HTTP_CONN_ERROR ==> LastFailed(old(net.arrivals), net.arrivals)
      ensures var m := Min(len, content_len);
        m <= Room() && Covers(old(net.arrivals), |old(net.incoming)|, content_len - m, Room(), m)
          && calls >= content_len ==>
            ret == SUCCESS_RET && delivered + net.incoming == old(data[..m]) + old(net.incoming)
    {
      hide Min, Goes, Covers, StoppedBy, LastFailed, Received, Delivers;
      MinBounds(len, content_len);
      ghost var m := Min(len, content_len);
      ghost var inHand, before := data[..m], net.incoming;
      ghost var pending := inHand + before;
      ghost var lost := if m <= Room() then 0 else m - Room();
      var count;
      ghost var events := net.arrivals;
      ghost var covered := m <= Room() && Covers(events, |net.incoming|, content_len - m, Room(), m);
      if m <= Room() {
        CoveredByCalls(events, |net.incoming|, content_len - m, Room(), m);
        if covered {
          RoomToCover(events, |net.incoming|, content_len - m, Room(), m);
        }
      }
      ret, count := StartBody(net, data, len, content_len);
      StoppedLater(events, events, net.arrivals, ret == ERR_HTTP_CONN_ERROR);
      delivered := response_buf[..count];
      FirstPart(count, inHand, before, net.incoming);
      for i := 0 to calls
        invariant Valid() && |delivered| + retrieve_len == content_len && (is_more <==> ret != SUCCESS_RET)
        invariant response_content_len == content_len
        invariant lost == 0 ==> delivered + net.incoming == pending
        invariant |delivered| + |net.incoming| == |pending| - lost
        invariant ret == SUCCESS_RET ==> retrieve_len == 0
        invariant |net.arrivals| <= |events| && net.arrivals == events[|events| - |net.arrivals|..]
        invariant ret == ERR_HTTP_CONN_ERROR ==> LastFailed(events, net.arrivals)
        invariant covered ==> Room() > 0
        invariant covered ==>
          ret == SUCCESS_RET
          || (ret == HTTP_RETRIEVE_MORE_DATA && |delivered| > i
            && Covers(net.arrivals, |net.incoming|, retrieve_len, Room(), 0))
      {
        if !is_more {
          break;
        }
        ghost var earlier := net.incoming;
        var part;
        ret, part := RecvPart(net, events);
        PartsJoined(delivered, part, net.incoming, earlier);
        delivered := delivered + part;
      }
    }

    lemma DeliveredFirst(pending: seq<bv8>, count: nat, incoming: seq<bv8>)
      ensures Received(count, pending, incoming) ==>
        count <= response_buf.Length && response_buf[..count] + incoming == pending
    {
    }

    lemma FirstPart(count: nat, inHand: seq<bv8>, before: seq<bv8>, incoming: seq<bv8>)
      requires 1 <= response_buf_len <= response_buf.Length && Delivers(count, inHand, before, incoming)
      ensures |inHand| <= Room() ==>
        count <= response_buf.Length && response_buf[..count] + incoming == inHand + before
      ensures |inHand| > Room() ==> count == Room() && incoming == before
    {
    }

    lemma NothingInHand(count: nat, before: seq<bv8>, incoming: seq<bv8>)
      requires 1 <= response_buf_len && Delivers(count, [], before, incoming)
      ensures Received(count, before, incoming)
    {
      assert [] + before == before;
    }

    lemma PartsJoined(delivered: seq<bv8>, part: seq<bv8>, incoming: seq<bv8>, before: seq<bv8>)
      requires part + incoming == before
      ensures (delivered + part) + incoming == delivered + before
    {
    }

    lemma HoldingAll(data: seq<bv8>, incoming: seq<bv8>)
      requires 1 <= response_buf_len <= response_buf.Length
      ensures Holding(0, data + incoming, data, incoming)
    {
    }

    /** A call loses nothing exactly when it leaves nothing behind in the data buffer. */
    lemma Done(count: nat, pending: seq<bv8>, rest: seq<bv8>, incoming: seq<bv8>)
      requires Holding(count, pending, rest, incoming)
      ensures Received(count, pending, incoming) <==> rest == []
      ensures count <= |pending| && count <= response_buf.Length && response_buf[..count] == pending[..count]
    {
    }
  }

  lemma MinOfNone(n: nat)
    ensures Min(0, n) == 0
  {
  }

  lemma MinBounds(a: int, b: int)
    ensures Min(a, b) == a || Min(a, b) == b
    ensures Min(a, b) <= a && Min(a, b) <= b
  {
  }
}
