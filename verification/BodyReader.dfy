/** internal/fetch/fetch.go: reading a body under a limit, announced or not. */
module BodyReader {

  newtype Byte = x: int | 0 <= x < 256

  const MAX_EAGER_BODY := 256 * 1024
  const UNANNOUNCED_CHUNK := 48 * 1024
  const NON_FINAL_STEP_DIVISOR := 2
  const CHUNK_GROWTH_DIVISOR := 2

  datatype Status = More | Eof | Failed

  datatype Result = Ok(body: seq<Byte>) | Err

  function Min(a: nat, b: nat): nat { if a < b then a else b }

  /** An io.Reader: it hands `rest` out in pieces of its own choosing, may come back empty-handed
      `stalls` times, may use the whole buffer as scratch, and then ends as `ending` says, with the
      last piece or after it. */
  class Reader {
    var rest: seq<Byte>
    var stalls: nat
    const ending: Status

    constructor (data: seq<Byte>, stalls: nat, ending: Status)
      requires !ending.More?
      ensures rest == data && this.stalls == stalls && this.ending == ending
    {
      rest, this.stalls, this.ending := data, stalls, ending;
    }

    method Read(buf: array<Byte>, from: nat) returns (got: nat, status: Status)
      requires from < buf.Length && !ending.More?
      modifies this, buf
      ensures from + got <= buf.Length && got <= old(|rest|)
      ensures buf[..from] == old(buf[..from]) && buf[from..from + got] == old(rest)[..got]
      ensures rest == old(rest)[got..]
      ensures status.More? ==> |rest| + stalls < old(|rest| + stalls)
      ensures !status.More? ==> rest == [] && status == ending
    {
      var n: nat :| n <= |rest| && from + n <= buf.Length && (n == 0 ==> rest == [] || stalls > 0);
      got := n;
      ghost var kept := buf[..from];
      for i := 0 to got
        invariant buf[..from] == kept && rest == old(rest) && stalls == old(stalls)
        invariant buf[from..from + i] == rest[..i]
      {
        buf[from + i] := rest[i];
        assert buf[from..from + i + 1] == buf[from..from + i] + [rest[i]];
      }
      ghost var filled := buf[..from + got];
      for i := from + got to buf.Length
        invariant from + got <= i && buf[..from + got] == filled && rest == old(rest) && stalls == old(stalls)
      {
        var scratch: Byte :| true;
        buf[i] := scratch;
      }
      assert buf[..from] == filled[..from] && buf[from..from + got] == filled[from..];
      rest := rest[got..];
      var last: bool :| rest != [] ==> !last;
      if rest == [] && (last || (got == 0 && stalls == 0)) {
        status := ending;
      } else {
        status := More;
        if got == 0 {
          stalls := stalls - 1;
        }
      }
    }
  }

  /** What a limited read must return of a stream. */
  function Prefix(data: seq<Byte>, limit: nat): seq<Byte>
  {
    data[..Min(|data|, limit + 1)]
  }

  /** The stream's prefix, or its failure; a failure goes unnoticed only past the limit. */
  predicate Delivers(data: seq<Byte>, ending: Status, limit: nat, out: Result)
  {
    if ending.Eof? || |data| > limit + 1 then out == Ok(Prefix(data, limit))
    else out == Err || (|data| == limit + 1 && out == Ok(data))
  }

  lemma EndDelivers(data: seq<Byte>, ending: Status, limit: nat)
    requires |data| <= limit + 1
    ensures Delivers(data, ending, limit, if ending.Eof? then Ok(data[..|data|]) else Err)
  {
    assert data[..|data|] == data;
  }

  lemma OverrunDelivers(data: seq<Byte>, ending: Status, limit: nat)
    requires |data| >= limit + 1
    ensures Delivers(data, ending, limit, Ok(data[..limit + 1]))
  {
    if |data| == limit + 1 {
      assert data[..limit + 1] == data;
    }
  }

  // ----- growth of the announced buffer -----

  function Ceiling(limit: nat): nat { limit + 1 }

  function Half(limit: nat): nat { (limit + 2) / 2 }

  /** The length `growBody` gives the next buffer. */
  function Grown(size: nat, hint: nat, limit: nat): (next: nat)
    requires 0 < size <= limit && hint <= limit
    ensures size < next <= 2 * size && next <= limit + 1
    ensures next == limit + 1 || 2 * next <= limit + 2
    ensures 2 * (hint + 1) <= limit + 2 && size < hint + 1 ==> next == if 2 * size < hint + 1 then 2 * size else hint + 1
  {
    var next := Min(size + size, Ceiling(limit));
    if hint + 1 <= Half(limit) && size < hint + 1 then Min(next, hint + 1)
    else if next < Ceiling(limit) then Min(next, Half(limit))
    else next
  }

  method GrowBody(buf: array<Byte>, hint: nat, limit: nat) returns (out: array<Byte>)
    requires 0 < buf.Length <= limit && hint <= limit
    ensures fresh(out) && out.Length == Grown(buf.Length, hint, limit)
    ensures out[..buf.Length] == buf[..]
  {
    var ceiling := limit + 1;
    var half := (ceiling + 1) / NON_FINAL_STEP_DIVISOR;
    var size := buf.Length;
    var next := Min(size + size, ceiling);
    if hint + 1 <= half && size < hint + 1 {
      next := Min(next, hint + 1);
    } else if next < ceiling {
      next := Min(next, half);
    }
    out := new Byte[next];
    for i := 0 to size
      invariant out[..i] == buf[..i]
    {
      out[i] := buf[i];
    }
  }

  /** One allocation: the buffer's length, and how many bytes had been read when it was made. */
  datatype Alloc = Alloc(cap: nat, read: nat)

  /** The buffers an announced read allocated, in order: the first before a byte was read, none past the
      ceiling, and each later one a growth the bytes read by then justify. */
  ghost predicate Bounded(allocs: seq<Alloc>, hint: nat, limit: nat, arrived: nat)
  {
    && |allocs| > 0 && allocs[0] == Alloc(if hint < 262144 then hint + 1 else 262145, 0)
    && (forall i :: 0 <= i < |allocs| ==> allocs[i].cap <= limit + 1 && allocs[i].read <= arrived)
    && (forall i :: 0 <= i < |allocs| - 1 ==> GrowthOk(allocs[i], allocs[i + 1], hint, limit))
  }

  /** One growth: made when exactly the old buffer's length had been read, strict, to at most twice what
      had been read, landing on the announcement once twice that reaches it, and the two buffers live
      together within a ceiling and a half wherever the first buffer allows it. */
  ghost predicate GrowthOk(was: Alloc, now: Alloc, hint: nat, limit: nat)
  {
    && now.read == was.cap < now.cap <= 2 * now.read
    && (2 * (hint + 1) <= limit + 2 && now.read <= hint ==>
          now.cap == if 2 * now.read < hint + 1 then 2 * now.read else hint + 1)
    && (2 * 262145 <= limit + 2 ==> 2 * was.cap <= limit + 2 && 2 * (was.cap + now.cap) <= 2 * (limit + 1) + limit + 2)
  }

  lemma FirstIsBounded(hint: nat, limit: nat, arrived: nat)
    requires 0 < hint <= limit
    ensures Bounded([Alloc(Min(hint, MAX_EAGER_BODY) + 1, 0)], hint, limit, arrived)
  {
  }

  lemma GrowthIsOk(was: Alloc, hint: nat, limit: nat)
    requires 0 < was.cap <= limit && hint <= limit
    requires MAX_EAGER_BODY + 1 <= Half(limit) ==> was.cap <= Half(limit) || was.cap == limit + 1
    ensures GrowthOk(was, Alloc(Grown(was.cap, hint, limit), was.cap), hint, limit)
  {
  }

  lemma BoundedGrows(allocs: seq<Alloc>, hint: nat, limit: nat, arrived: nat)
    requires Bounded(allocs, hint, limit, arrived) && hint <= limit
    requires var size := allocs[|allocs| - 1].cap;
             0 < size <= limit && size <= arrived
             && GrowthOk(allocs[|allocs| - 1], Alloc(Grown(size, hint, limit), size), hint, limit)
    ensures var size := allocs[|allocs| - 1].cap;
            Bounded(allocs + [Alloc(Grown(size, hint, limit), size)], hint, limit, arrived)
  {
  }

  /** One read behind the bytes already there. */
  method ReadMore(r: Reader, buf: array<Byte>, n: nat, ghost data: seq<Byte>) returns (next: nat, status: Status)
    requires n < buf.Length && n <= |data| && !r.ending.More?
    requires buf[..n] == data[..n] && r.rest == data[n..]
    modifies r, buf
    ensures n <= next <= buf.Length && next <= |data| && buf[..next] == data[..next] && r.rest == data[next..]
    ensures status.More? ==> |r.rest| + r.stalls < old(|r.rest| + r.stalls)
    ensures !status.More? ==> r.rest == [] && status == r.ending
  {
    var got;
    got, status := r.Read(buf, n);
    next := n + got;
    assert buf[..next] == buf[..n] + buf[n..next] == data[..next];
  }

  method ReadBody(r: Reader, limit: nat, hint: int) returns (out: Result, ghost allocs: seq<Alloc>, ghost room: nat)
    requires !r.ending.More?
    modifies r
    ensures Delivers(old(r.rest), r.ending, limit, out)
    ensures if 0 < hint <= limit then Bounded(allocs, hint, limit, old(|r.rest|))
            else RoomIsEarned(room, old(|r.rest|), limit)
  {
    if hint <= 0 || hint > limit {
      out, room := ReadChunked(r, limit);
      return out, [], room;
    }
    room := 0;
    hide Bounded, GrowthOk, Delivers, RoomIsEarned;
    ghost var data := r.rest;
    FirstIsBounded(hint, limit, |data|);
    var buf := new Byte[Min(hint, MAX_EAGER_BODY) + 1];
    var n: nat := 0;
    allocs := [Alloc(buf.Length, 0)];
    while true
      invariant |allocs| > 0 && fresh(buf) && n < buf.Length <= limit + 1 && buf.Length == allocs[|allocs| - 1].cap
      invariant n <= |data| && buf[..n] == data[..n] && r.rest == data[n..]
      invariant Bounded(allocs, hint, limit, |data|)
      invariant MAX_EAGER_BODY + 1 <= Half(limit) ==> buf.Length <= Half(limit) || buf.Length == limit + 1
      decreases |r.rest| + r.stalls
    {
      var status;
      n, status := ReadMore(r, buf, n, data);
      if !status.More? {
        EndDelivers(data, status, limit);
        if status.Eof? {
          return Ok(buf[..n]), allocs, room;
        }
        return Err, allocs, room;
      }
      if n < buf.Length {
        continue;
      }
      if n > limit {
        OverrunDelivers(data, r.ending, limit);
        return Ok(buf[..n]), allocs, room;
      }
      GrowthIsOk(allocs[|allocs| - 1], hint, limit);
      BoundedGrows(allocs, hint, limit, |data|);
      buf := GrowBody(buf, hint, limit);
      allocs := allocs + [Alloc(buf.Length, n)];
    }
  }

  // ----- the unannounced path -----

  /** A byte slice: the first `len` bytes of an array. */
  datatype Slice = Slice(data: array<Byte>, len: nat)

  function Flat(parts: seq<seq<Byte>>): seq<Byte>
  {
    if parts == [] then [] else Flat(parts[..|parts| - 1]) + parts[|parts| - 1]
  }

  ghost predicate Shows(chunks: seq<Slice>, parts: seq<seq<Byte>>)
    reads set c | c in chunks :: c.data
  {
    && |chunks| == |parts|
    && forall i :: 0 <= i < |chunks| ==> chunks[i].len <= chunks[i].data.Length && chunks[i].data[..chunks[i].len] == parts[i]
  }

  /** Reads until the chunk is full or the stream ends. */
  method FillChunk(r: Reader, chunk: array<Byte>) returns (n: nat, status: Status)
    requires !r.ending.More? && chunk.Length > 0
    modifies r, chunk
    ensures n <= chunk.Length && n <= old(|r.rest|)
    ensures chunk[..n] == old(r.rest)[..n] && r.rest == old(r.rest)[n..]
    ensures status.More? ==> n == chunk.Length && |r.rest| + r.stalls < old(|r.rest| + r.stalls)
    ensures !status.More? ==> r.rest == [] && status == r.ending
  {
    n, status := 0, More;
    while n < chunk.Length
      invariant n <= chunk.Length && n <= old(|r.rest|)
      invariant chunk[..n] == old(r.rest)[..n] && r.rest == old(r.rest)[n..]
      invariant n == 0 || |r.rest| + r.stalls < old(|r.rest| + r.stalls)
      invariant |r.rest| + r.stalls <= old(|r.rest| + r.stalls) && status.More?
      decreases |r.rest| + r.stalls
    {
      n, status := ReadMore(r, chunk, n, old(r.rest));
      if !status.More? {
        return;
      }
    }
  }

  /** Room for a body that announced nothing: within the ceiling, and no more than half as much again as
      what arrived beyond one first chunk. */
  ghost predicate RoomIsEarned(room: nat, arrived: nat, limit: nat)
  {
    room <= limit + 1 && 2 * room <= 3 * arrived + 2 * 49152
  }

  /** The same prefix, gathered in chunks whose lengths together follow what arrives. */
  method ReadChunked(r: Reader, limit: nat) returns (out: Result, ghost room: nat)
    requires !r.ending.More?
    modifies r
    ensures Delivers(old(r.rest), r.ending, limit, out)
    ensures RoomIsEarned(room, old(|r.rest|), limit)
  {
    hide Delivers;
    ghost var data := r.rest;
    var chunks: seq<Slice> := [];
    ghost var parts: seq<seq<Byte>> := [];
    var ceiling := limit + 1;
    var total: nat := 0;
    var size: nat := Min(UNANNOUNCED_CHUNK, ceiling);
    room := 0;
    while true
      invariant room == total
      invariant 0 < size <= ceiling - total && total <= |data| && 2 * size <= 2 * UNANNOUNCED_CHUNK + total
      invariant Shows(chunks, parts) && Flat(parts) == data[..total] && r.rest == data[total..]
      invariant forall c :: c in chunks ==> fresh(c.data)
      decreases |r.rest| + r.stalls
    {
      var chunk := new Byte[size];
      room := room + chunk.Length;
      var n, status := FillChunk(r, chunk);
      AppendPart(parts, chunk[..n]);
      assert data[..total + n] == data[..total] + data[total..][..n];
      chunks, parts, total := chunks + [Slice(chunk, n)], parts + [chunk[..n]], total + n;
      if !status.More? {
        EndDelivers(data, status, limit);
        if status.Eof? {
          var body := JoinChunks(chunks, total, parts);
          return Ok(body), room;
        }
        return Err, room;
      }
      if total >= ceiling {
        OverrunDelivers(data, r.ending, limit);
        var body := JoinChunks(chunks, total, parts);
        return Ok(body), room;
      }
      size := Min(size + size / CHUNK_GROWTH_DIVISOR, ceiling - total);
    }
  }

  lemma AppendPart(parts: seq<seq<Byte>>, part: seq<Byte>)
    ensures Flat(parts + [part]) == Flat(parts) + part
  {
    assert (parts + [part])[..|parts|] == parts;
  }

  method JoinChunks(chunks: seq<Slice>, total: nat, ghost parts: seq<seq<Byte>>) returns (body: seq<Byte>)
    requires Shows(chunks, parts) && |chunks| > 0 && total == |Flat(parts)|
    ensures body == Flat(parts)
  {
    if |chunks| == 1 {
      assert Flat(parts[..0]) == [];
      return chunks[0].data[..chunks[0].len];
    }
    body := [];
    for i := 0 to |chunks|
      invariant body == Flat(parts[..i])
    {
      assert parts[..i + 1][..i] == parts[..i];
      body := body + chunks[i].data[..chunks[i].len];
    }
    assert parts[..|chunks|] == parts;
  }

  // ----- what the caller sees -----

  datatype Response = Body(body: seq<Byte>) | TooLarge | ReadError

  /** The whole body or an error: never a truncated one, and too large exactly when it is. */
  method ReadResponse(r: Reader, limit: nat, hint: int) returns (out: Response)
    requires !r.ending.More?
    modifies r
    ensures r.ending.Eof? ==> out == if old(|r.rest|) <= limit then Body(old(r.rest)) else TooLarge
    ensures r.ending.Failed? ==> out == ReadError || (out == TooLarge && old(|r.rest|) > limit)
  {
    var read, allocs, room := ReadBody(r, limit, hint);
    match read
    case Err => return ReadError;
    case Ok(body) =>
      if |body| > limit {
        return TooLarge;
      }
      out := Body(body);
  }

  /** Two reads of one stream agree, whatever was announced and however the pieces came; only a failure
      on the very byte that shows an overrun can be seen either way. */
  lemma ReadsAgree(data: seq<Byte>, ending: Status, limit: nat, a: Result, b: Result)
    requires Delivers(data, ending, limit, a) && Delivers(data, ending, limit, b)
    ensures a != b ==> !ending.Eof? && |data| == limit + 1 && Err in {a, b} && Ok(data) in {a, b}
  {
  }
}
