/** The size-bounded response recorder that captures the relay's answer to an
    asynchronous image task (controller/canvas_image_task.go). */
module ResponseRecorder {
  import opened Common

  datatype Response = Response(body: Bytes, overflow: bool)

  function Concat(writes: seq<Bytes>): (all: Bytes) {
    if writes == [] then [] else writes[0] + Concat(writes[1..])
  }

  /** What a recorder with `limit` bytes of room keeps of a whole response: the
      longest prefix that fits, and whether anything was cut off. */
  function Captured(limit: int, all: Bytes): (r: Response)
    ensures !r.overflow ==> r.body == all
    ensures r.body <= all
  {
    var room := if limit < 0 then 0 else limit;
    if |all| > room then Response(all[..room], true) else Response(all, false)
  }

  lemma {:induction false} ConcatAppend(writes: seq<Bytes>, last: Bytes)
    ensures Concat(writes + [last]) == Concat(writes) + last
  {
    if writes == [] {
      assert writes + [last] == [last];
      assert Concat([last]) == last + Concat([]);
    } else {
      assert (writes + [last])[1..] == writes[1..] + [last];
      ConcatAppend(writes[1..], last);
    }
  }

  class BoundedRecorder {
    const limit: int
    var remaining: nat
    var overflow: bool
    var body: Bytes
    ghost var written: Bytes

    /** The recorder's fields are those of a recorder that saw `written`. */
    ghost predicate Valid()
      reads this
    {
      && Response(body, overflow) == Captured(limit, written)
      && |body| + remaining == (if limit < 0 then 0 else limit)
    }

    constructor (limit: int)
      ensures Valid() && written == [] && this.limit == limit
    {
      this.limit := limit;
      remaining := if limit < 0 then 0 else limit;
      overflow, body, written := false, [], [];
    }

    method Write(payload: Bytes) returns (n: nat)
      requires Valid()
      modifies this
      ensures Valid() && written == old(written) + payload
      ensures n == |payload|
    {
      n := |payload|;
      var kept := payload;
      if |payload| > remaining {
        overflow := true;
        kept := payload[..remaining];
      }
      if |kept| > 0 {
        body := body + kept;
        remaining := remaining - |kept|;
      }
      written := written + payload;
    }
  }

  /** Any sequence of writes, of any sizes and in any split, leaves exactly the
      first `limit` bytes of their concatenation. */
  method RecordAll(limit: int, writes: seq<Bytes>) returns (r: Response)
    ensures r == Captured(limit, Concat(writes))
    ensures var all, room := Concat(writes), if limit < 0 then 0 else limit;
      (r.overflow <==> |all| > room) && r.body == if |all| <= room then all else all[..room]
  {
    var recorder := new BoundedRecorder(limit);
    for i := 0 to |writes|
      invariant recorder.Valid() && recorder.limit == limit
      invariant recorder.written == Concat(writes[..i])
    {
      var _ := recorder.Write(writes[i]);
      assert writes[..i + 1] == writes[..i] + [writes[i]];
      ConcatAppend(writes[..i], writes[i]);
    }
    assert writes[..|writes|] == writes;
    r := Response(recorder.body, recorder.overflow);
  }
}
