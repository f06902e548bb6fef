/**
  The buffered log (framework/src/fwk_log.c): messages are framed with their length in the ring, and drained one
  character at a time into a device that may be busy or fail.
*/
module Log {
  import opened FwkStatus
  import opened Ring

  // ---------- the framed stream ----------

  /** The content of the ring for queued payloads: each is preceded by its length. */
  function Frames(payloads: seq<seq<Byte>>): seq<Byte>
    requires forall i :: 0 <= i < |payloads| ==> |payloads[i]| < 256
  {
    if payloads == [] then [] else [|payloads[0]|] + payloads[0] + Frames(payloads[1..])
  }

  function Flatten(payloads: seq<seq<Byte>>): seq<Byte> {
    if payloads == [] then [] else payloads[0] + Flatten(payloads[1..])
  }

  predicate Framed(payloads: seq<seq<Byte>>) {
    forall i :: 0 <= i < |payloads| ==> 0 < |payloads[i]| < 256
  }

  lemma {:induction false} FramesAppend(payloads: seq<seq<Byte>>, p: seq<Byte>)
    requires Framed(payloads) && |p| < 256
    ensures Frames(payloads + [p]) == Frames(payloads) + [|p|] + p
  {
    if payloads == [] {
      assert (payloads + [p])[1..] == [];
    } else {
      assert (payloads + [p])[1..] == payloads[1..] + [p];
      FramesAppend(payloads[1..], p);
    }
  }

  lemma {:induction false} FlattenAppend(payloads: seq<seq<Byte>>, p: seq<Byte>)
    ensures Flatten(payloads + [p]) == Flatten(payloads) + p
  {
    if payloads == [] {
      assert (payloads + [p])[1..] == [];
    } else {
      assert (payloads + [p])[1..] == payloads[1..] + [p];
      FlattenAppend(payloads[1..], p);
    }
  }

  /** The payload of a message: its text and the terminator. */
  function Payload(message: seq<Byte>): (r: seq<Byte>)
    ensures |r| == |message| + 1
  {
    message + [0]
  }

  /** The length that is kept in one byte; so much of the payload is copied. */
  function Width(message: seq<Byte>): (w: nat)
    ensures w < 256 && w <= |message| + 1
    ensures w == |message| + 1 <==> |message| + 1 <= 255
  {
    (|message| + 1) % 256
  }

  function Copied(message: seq<Byte>): (r: seq<Byte>)
    ensures |r| == Width(message) && r <= Payload(message)
  {
    Payload(message)[..Width(message)]
  }

  /** What buffering a message appends. */
  function Appended(message: seq<Byte>): seq<Byte> {
    [Width(message)] + Copied(message)
  }

  /** A message is framed with all its bytes exactly when text and terminator fit in 255 bytes. */
  lemma FramedExactlyWhenShort(message: seq<Byte>)
    ensures Appended(message) == [Width(message)] + Payload(message) <==> |message| + 1 <= 255
    ensures Copied(message) == Payload(message) <==> |message| + 1 <= 255
    ensures Framed([Copied(message)]) <==> Width(message) > 0
    ensures Width(message) > 0 ==> Appended(message) == Frames([Copied(message)])
  {
    assert [Copied(message)][0] == Copied(message);
    assert Frames([Copied(message)][1..]) == [];
    if |message| + 1 > 255 {
      assert |Appended(message)| < |[Width(message)] + Payload(message)|;
    }
  }

  /** A payload queued behind the others keeps the stream consistent. */
  lemma QueueOne(rest: seq<Byte>, queued: seq<seq<Byte>>, emitted: seq<Byte>, accepted: seq<Byte>, p: seq<Byte>)
    requires Framed(queued) && 0 < |p| < 256 && emitted + (rest + Flatten(queued)) == accepted
    ensures Framed(queued + [p])
    ensures rest + Frames(queued + [p]) == rest + Frames(queued) + [|p|] + p
    ensures rest + Flatten(queued + [p]) == rest + Flatten(queued) + p
    ensures emitted + (rest + Flatten(queued) + p) == accepted + p
  {
    FramesAppend(queued, p);
    FlattenAppend(queued, p);
    Regroup(rest, Frames(queued), [|p|]);
    Regroup(rest, Frames(queued) + [|p|], p);
    Regroup(rest, Flatten(queued), p);
    Regroup(emitted, rest + Flatten(queued), p);
  }

  lemma Regroup(a: seq<Byte>, b: seq<Byte>, c: seq<Byte>)
    ensures a + (b + c) == a + b + c
  {
  }

  /** The first queued payload becomes the current one. */
  lemma TakeFirst(queued: seq<seq<Byte>>, stream: seq<Byte>)
    requires Framed(queued) && stream == Frames(queued)
    ensures queued == [] <==> stream == []
    ensures if queued == [] then Flatten(queued) == [] else 0 < |queued[0]| < 256
    ensures queued != [] ==> stream[0] == |queued[0]| && stream[1..] == queued[0] + Frames(queued[1..])
    ensures queued != [] ==> Flatten(queued) == queued[0] + Flatten(queued[1..]) && Framed(queued[1..])
  {
    if queued != [] {
      assert stream == [|queued[0]|] + (queued[0] + Frames(queued[1..]));
    }
  }

  /** What one call of the drain does with the device: the status of the n-th character offered to it. */
  type Device = nat -> int

  // ---------- the code ----------

  class LogCtx {
    const ring: FwkRing
    /** The answers of the device, and the text of the message that reports `n` dropped messages. */
    const device: Device
    const notice: nat -> seq<Byte>

    var remaining: nat
    var dropped: nat
    /** The characters offered to the device so far, and those it took. */
    var offered: nat
    var emitted: seq<Byte>

    /** The payloads accepted so far, one after the other; the rest of the one being drained; those still queued. */
    ghost var accepted: seq<Byte>
    ghost var rest: seq<Byte>
    ghost var queued: seq<seq<Byte>>
    /** The bytes still to come out. */
    ghost var pending: seq<Byte>

    /**
      The ring holds the rest of the current message and then well-formed frames, and what the device took
      together with what is still to come is exactly the accepted messages in order.
    */
    ghost predicate Valid()
      reads this, ring, ring.storage
    {
      && ring.Valid()
      && Framed(queued)
      && |rest| == remaining < 256
      && ring.contents == rest + Frames(queued)
      && pending == rest + Flatten(queued) && emitted + pending == accepted
      && dropped < TWO32
    }

    constructor (storage: array<Byte>, device: Device, notice: nat -> seq<Byte>)
      requires storage.Length > 0
      ensures Valid() && fresh(ring) && ring.storage == storage && accepted == [] && emitted == [] && dropped == 0
      ensures this.device == device && this.notice == notice
    {
      this.device, this.notice := device, notice;
      remaining, dropped, offered, emitted := 0, 0, 0, [];
      accepted, rest, queued, pending := [], [], [], [];
      ring := new FwkRing(storage);
    }

    /**
      Queues a message; it is accepted exactly when the ring has room for its frame, which holds as many bytes as the
      length byte says. If that is 0, with text and terminator filling a multiple of 256 bytes, the stream is broken.
    */
    method Buffer(message: seq<Byte>) returns (ok: bool)
      requires Valid()
      modifies ring`head, ring`tail, ring`full, ring`contents, ring.storage, `accepted, `queued, `pending
      ensures ring.Valid() && (Valid() <==> !ok || Width(message) > 0)
      ensures ok <==> 1 + Width(message) <= ring.storage.Length - |old(ring.contents)|
      ensures ring.contents == old(ring.contents) + if ok then Appended(message) else []
      ensures accepted == old(accepted) + if ok then Copied(message) else []
      ensures queued == old(queued) + if ok && Width(message) > 0 then [Copied(message)] else []
      ensures |message| + 1 <= 255 ==> Copied(message) == Payload(message)
      ensures |message| + 1 <= 255 && ok ==>
        accepted == old(accepted) + message + [0] && queued == old(queued) + [message + [0]]
    {
      FramedExactlyWhenShort(message);
      Regroup(accepted, message, [0]);
      var length := Width(message);
      var free := ring.GetFree();
      if 1 + length > free {
        return false;
      }
      PushFrame(message);
      if length > 0 {
        QueueOne(rest, queued, emitted, accepted, Copied(message));
        queued := queued + [Copied(message)];
        accepted := accepted + Copied(message);
        pending := pending + Copied(message);
      }
      return true;
    }

    /** The two pushes of a frame: the length, then that many bytes of the message. */
    method PushFrame(message: seq<Byte>)
      requires ring.Valid() && 1 + Width(message) <= ring.storage.Length - |ring.contents|
      modifies ring`head, ring`tail, ring`full, ring`contents, ring.storage
      ensures ring.Valid()
      ensures ring.contents == old(ring.contents) + [Width(message)] + Copied(message)
      ensures ring.contents == old(ring.contents) + Appended(message)
    {
      ghost var before := ring.contents;
      var length := Width(message);
      var pushed := ring.Push([length]);
      assert ring.contents == before + [length];
      pushed := ring.Push(Payload(message)[..length]);
      Regroup(before, [length], Copied(message));
    }

    /** Logs a message, counting it as dropped when there is no room. */
    method Printf(message: seq<Byte>)
      requires Valid()
      modifies `dropped, `accepted, `queued, `pending, ring`head, ring`tail, ring`full, ring`contents, ring.storage
      ensures var ok := 1 + Width(message) <= ring.storage.Length - |old(ring.contents)|;
        && (Valid() <==> !ok || Width(message) > 0)
        && accepted == old(accepted) + (if ok then Copied(message) else [])
        && dropped == if ok then old(dropped) else (old(dropped) + 1) % TWO32
      ensures |message| + 1 <= 255 ==> Copied(message) == Payload(message)
      ensures |message| + 1 <= 255 ==>
        accepted == if |message| + 2 <= ring.storage.Length - |old(ring.contents)| then old(accepted) + message + [0]
                    else old(accepted)
      ensures remaining == old(remaining) && offered == old(offered) && emitted == old(emitted)
    {
      hide Copied, Width, Payload, Framed;
      var ok := Buffer(message);
      if !ok {
        dropped := (dropped + 1) % TWO32;
      }
    }

    /** Takes the first byte out of the ring, if there is one. */
    method PopByte() returns (empty: bool, byte: Byte)
      requires ring.Valid()
      modifies ring`head, ring`full, ring`contents
      ensures ring.Valid() && empty == (old(ring.contents) == [])
      ensures if empty then ring.contents == [] else [byte] + ring.contents == old(ring.contents)
    {
      var cell := new Byte[1];
      var fetched := ring.Pop(cell, 1);
      empty, byte := fetched == 0, cell[0];
    }

    /** Fetches the length of the next message, if there is one. */
    method Fetch() returns (empty: bool)
      requires Valid() && remaining == 0
      modifies ring`head, ring`full, ring`contents, `remaining, `rest, `queued
      ensures Valid() && empty == (old(pending) == []) && pending == old(pending)
      ensures empty ==> remaining == 0 && ring.contents == [] == old(ring.contents)
      ensures !empty ==> remaining > 0 && [remaining] + ring.contents == old(ring.contents)
    {
      hide Flatten, Frames, Framed;
      TakeFirst(queued, ring.contents);
      assert rest == [] && pending == Flatten(queued) && ring.contents == Frames(queued);
      var length;
      empty, length := PopByte();
      if !empty {
        remaining, rest, queued := length, queued[0], queued[1..];
      }
    }

    /** Drops the character just taken from the ring. */
    method Advance(cell: array<Byte>)
      requires Valid() && remaining > 0 && cell.Length == 1 && cell != ring.storage && cell[0] == rest[0]
      modifies ring`head, ring`full, ring`contents, `remaining, `rest, `pending, `emitted, cell
      ensures Valid() && emitted == old(emitted) + [old(pending)[0]] && pending == old(pending)[1..]
    {
      ghost var out, current := emitted, rest;
      emitted := emitted + [cell[0]];
      var popped := ring.Pop(cell, 1);
      remaining := remaining - 1;
      rest := rest[1..];
      pending := rest + Flatten(queued);
      assert current == [current[0]] + rest;
      Regroup([current[0]], rest, Flatten(queued));
      Regroup(out, [current[0]], pending);
    }

    /** Offers the next character of the current message to the device; a character it does not take stays. */
    method Offer() returns (status: int)
      requires Valid() && remaining > 0
      modifies ring`head, ring`full, ring`contents, `remaining, `rest, `pending, `offered, `emitted
      ensures Valid() && offered == old(offered) + 1
      ensures var answer := device(old(offered));
        status == if answer == SUCCESS || answer == E_BUSY then PENDING else answer
      ensures device(old(offered)) == SUCCESS ==>
        emitted == old(emitted) + [old(pending)[0]] && pending == old(pending)[1..]
      ensures device(old(offered)) != SUCCESS ==> emitted == old(emitted) && pending == old(pending)
    {
      var cell := new Byte[1];
      var fetched := ring.Peek(cell, 1);
      assert cell[0] == rest[0];
      status := device(offered);
      offered := offered + 1;
      if status == SUCCESS {
        Advance(cell);
        status := PENDING;
      } else if status == E_BUSY {
        status := PENDING;
      }
    }

    /** With nothing left to drain, dropped messages are reported by a message of their own. */
    method ReportDropped() returns (status: int)
      requires Valid() && pending == [] && ring.contents == [] && |notice(dropped)| < 255
      modifies `dropped, `accepted, `queued, `pending, ring`head, ring`tail, ring`full, ring`contents, ring.storage
      ensures Valid() && dropped == 0 && status == (if old(dropped) > 0 then PENDING else SUCCESS)
      ensures old(dropped) == 0 ==> pending == []
      ensures if old(dropped) > 0 && |notice(old(dropped))| + 2 <= ring.storage.Length
        then accepted == old(accepted) + Payload(notice(old(dropped))) else accepted == old(accepted)
    {
      status := SUCCESS;
      if dropped > 0 {
        Printf(notice(dropped));
        dropped := 0;
        status := PENDING;
      }
    }

    /** The effect of a call that had nothing to offer to the device. */
    twostate predicate Reported(status: int)
      reads this, ring
    {
      && emitted == old(emitted) && offered == old(offered) && dropped == 0
      && status == (if old(dropped) > 0 then PENDING else SUCCESS)
      && (old(dropped) == 0 ==> pending == [])
      && if old(dropped) > 0 && |notice(old(dropped))| + 2 <= ring.storage.Length
         then accepted == old(accepted) + Payload(notice(old(dropped))) else accepted == old(accepted)
    }

    /** The effect of a call that offered a character to the device. */
    twostate predicate Offered(status: int)
      requires old(pending) != []
      reads this
    {
      var answer := device(old(offered));
      && accepted == old(accepted) && dropped == old(dropped) && offered == old(offered) + 1
      && status == (if answer == SUCCESS || answer == E_BUSY then PENDING else answer)
      && if answer == SUCCESS then
           emitted == old(emitted) + [old(pending)[0]] && pending == old(pending)[1..]
         else emitted == old(emitted) && pending == old(pending)
    }

    /** Makes sure a message is current, if there is any. */
    method FetchIfDone() returns (empty: bool)
      requires Valid()
      modifies ring`head, ring`full, ring`contents, `remaining, `rest, `queued
      ensures Valid() && empty == (old(pending) == []) && pending == old(pending)
      ensures empty ==> ring.contents == []
      ensures !empty ==> remaining > 0
    {
      empty := false;
      if remaining == 0 {
        empty := Fetch();
      }
    }

    /**
      `fwk_log_unbuffer`: takes one character at most to the device, and reports dropped messages once nothing is
      left to drain.
    */
    method Unbuffer() returns (status: int)
      requires Valid() && forall n :: |notice(n)| < 255
      modifies this, ring`head, ring`tail, ring`full, ring`contents, ring.storage
      ensures Valid()
      ensures old(pending) == [] ==> Reported(status)
      ensures old(pending) != [] ==> Offered(status)
    {
      var empty := FetchIfDone();
      if empty {
        status := ReportDropped();
        assert Reported(status);
      } else {
        status := Offer();
        assert Offered(status);
      }
    }

    static lemma PrefixTrans(a: seq<Byte>, b: seq<Byte>, c: seq<Byte>)
      requires a <= b <= c
      ensures a <= c
    {
    }

    /** One drain call of a flush that started with `out` emitted and `taken` accepted. */
    method FlushOne(ghost out: seq<Byte>, ghost taken: seq<Byte>) returns (status: int)
      requires Valid() && forall n :: |notice(n)| < 255
      requires out <= emitted && taken <= accepted
      modifies this, ring`head, ring`tail, ring`full, ring`contents, ring.storage
      ensures Valid() && out <= emitted && taken <= accepted && old(offered) <= offered
      ensures status == SUCCESS ==> emitted == accepted && pending == [] && dropped == 0
      ensures status != SUCCESS && status != PENDING ==> offered == old(offered) + 1 && device(old(offered)) == status
      ensures status == PENDING ==>
        || dropped < old(dropped)
        || (dropped == old(dropped) && |pending| < |old(pending)|)
        || (dropped == old(dropped) && pending == old(pending) && offered == old(offered) + 1
            && (device(old(offered)) == E_BUSY || device(old(offered)) == PENDING))
    {
      status := Unbuffer();
      PrefixTrans(out, old(emitted), emitted);
      PrefixTrans(taken, old(accepted), accepted);
    }

    /**
      `fwk_log_flush`: repeats the drain while it is pending. From call `calm` on the device answers with success
      or an error; without such a point the loop need not end. SUCCESS means everything accepted has come out.
    */
    method Flush(ghost calm: nat) returns (status: int)
      requires Valid() && forall n :: |notice(n)| < 255
      requires forall i :: i >= calm ==> device(i) != E_BUSY && device(i) != PENDING
      modifies this, ring`head, ring`tail, ring`full, ring`contents, ring.storage
      ensures Valid() && status != PENDING
      ensures status == SUCCESS ==> emitted == accepted && pending == [] && dropped == 0
      ensures status != SUCCESS ==> old(offered) < offered && device(offered - 1) == status
      ensures old(emitted) <= emitted && old(accepted) <= accepted
    {
      ghost var out, taken := emitted, accepted;
      while true
        invariant Valid()
        invariant out <= emitted && taken <= accepted && old(offered) <= offered
        decreases dropped, |pending|, if offered < calm then calm - offered else 0
      {
        status := FlushOne(out, taken);
        if status != PENDING {
          return;
        }
      }
    }
  }
}
