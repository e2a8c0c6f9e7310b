/** The serial bus as the driver drives it: chip select brackets a
    transaction, and inside it every byte shifted out shifts one byte in.
    The chip is an oracle that may answer any byte on the strength of
    everything the bus has carried before. */
module Bus {

  import opened Catalog

  /** One step on the bus. */
  datatype Event =
    | Select                            // chip select low, transaction opened
    | Transfer(mosi: Byte, miso: Byte)  // one full-duplex byte: sent, received
    | Release                           // chip select high, transaction closed
    | Deselect                          // chip select driven high by the pin set-up

  /** The chip: the byte it shifts out while `mosi` is shifted in, after the
      bus has carried `history`. */
  type Chip = (seq<Event>, Byte) -> Byte

  /** The bytes the driver shifted out, in order. */
  function Sent(evs: seq<Event>): seq<Byte>
    decreases |evs|
  {
    if evs == [] then []
    else (if evs[0].Transfer? then [evs[0].mosi] else []) + Sent(evs[1..])
  }

  /** The bytes the chip shifted back, in order. */
  function Received(evs: seq<Event>): seq<Byte>
    decreases |evs|
  {
    if evs == [] then []
    else (if evs[0].Transfer? then [evs[0].miso] else []) + Received(evs[1..])
  }

  lemma {:induction false} SentAppend(a: seq<Event>, b: seq<Event>)
    ensures Sent(a + b) == Sent(a) + Sent(b)
    decreases |a|
  {
    if a == [] {
      assert a + b == b;
    } else {
      var head := if a[0].Transfer? then [a[0].mosi] else [];
      assert (a + b)[0] == a[0];
      assert (a + b)[1..] == a[1..] + b;
      SentAppend(a[1..], b);
      assert Sent(a + b) == head + (Sent(a[1..]) + Sent(b));
      assert Sent(a) == head + Sent(a[1..]);
      assert head + (Sent(a[1..]) + Sent(b)) == (head + Sent(a[1..])) + Sent(b);
    }
  }

  lemma {:induction false} ReceivedAppend(a: seq<Event>, b: seq<Event>)
    ensures Received(a + b) == Received(a) + Received(b)
    decreases |a|
  {
    if a == [] {
      assert a + b == b;
    } else {
      var head := if a[0].Transfer? then [a[0].miso] else [];
      assert (a + b)[0] == a[0];
      assert (a + b)[1..] == a[1..] + b;
      ReceivedAppend(a[1..], b);
      assert Received(a + b) == head + (Received(a[1..]) + Received(b));
      assert Received(a) == head + Received(a[1..]);
      assert head + (Received(a[1..]) + Received(b)) == (head + Received(a[1..])) + Received(b);
    }
  }

  /** Every byte received in `evs` is what the chip answers, given the
      history before `evs` and the events of `evs` before that byte. */
  ghost predicate Answered(chip: Chip, history: seq<Event>, evs: seq<Event>)
  {
    forall i :: 0 <= i < |evs| && evs[i].Transfer? ==> evs[i].miso == chip(history + evs[..i], evs[i].mosi)
  }

  /** Answers chain: a run answered after `history`, followed by a run
      answered after it, is answered as a whole. */
  lemma AnsweredAppend(chip: Chip, history: seq<Event>, a: seq<Event>, b: seq<Event>)
    requires Answered(chip, history, a)
    requires Answered(chip, history + a, b)
    ensures Answered(chip, history, a + b)
  {
    forall i | 0 <= i < |a + b| && (a + b)[i].Transfer?
      ensures (a + b)[i].miso == chip(history + (a + b)[..i], (a + b)[i].mosi)
    {
      if i < |a| {
        assert (a + b)[..i] == a[..i];
      } else {
        assert (a + b)[..i] == a + b[..i - |a|];
        assert history + (a + b[..i - |a|]) == (history + a) + b[..i - |a|];
      }
    }
  }

  /** Shifting `bytes` out one after the other inside an open transaction;
      the chip answers each. */
  function Stream(chip: Chip, history: seq<Event>, bytes: seq<Byte>): (t: seq<Event>)
    ensures |t| == |bytes|
    ensures forall i :: 0 <= i < |t| ==> t[i].Transfer? && t[i].mosi == bytes[i]
    ensures Answered(chip, history, t)
    ensures Sent(t) == bytes
    ensures |Received(t)| == |bytes|
    ensures forall i :: 0 <= i < |t| ==> Received(t)[i] == t[i].miso
    decreases |bytes|
  {
    if bytes == [] then []
    else
      var x := Transfer(bytes[0], chip(history, bytes[0]));
      var rest := Stream(chip, history + [x], bytes[1..]);
      assert Answered(chip, history, [x]) by {
        assert history + [x][..0] == history;
      }
      AnsweredAppend(chip, history, [x], rest);
      assert ([x] + rest)[1..] == rest;
      [x] + rest
  }

  /** A whole transaction: select, shift `bytes`, release. */
  function Transaction(chip: Chip, history: seq<Event>, bytes: seq<Byte>): (t: seq<Event>)
    ensures t != [] && t[0] == Select
    ensures Alternates(t)
    ensures Answered(chip, history, t)
    ensures Frames(t) == Idle([bytes])
    ensures |Received(t)| == |bytes|
  {
    var body := Stream(chip, history + [Select], bytes);
    ClosedFrame(chip, history, bytes);
    BracketAlternates(body);
    [Select] + body + [Release]
  }

  /** What the chip sees of the transactions so far. */
  datatype Framing =
    | Idle(closed: seq<seq<Byte>>)                       // chip select high
    | Open(closed: seq<seq<Byte>>, current: seq<Byte>)   // chip select low
    | Malformed                                          // a byte or release while chip select is high

  /** The effect of one event on what the chip sees. Chip select going low
      opens a transaction; while it is low, selecting again changes nothing
      and every transfer adds its byte; chip select going high, by a release
      or by the pin set-up, ends the transaction. A transfer or a release
      while chip select is high is outside any transaction. */
  function Step(f: Framing, e: Event): Framing
  {
    match f
    case Malformed => Malformed
    case Idle(closed) =>
      (match e
       case Select => Open(closed, [])
       case Deselect => Idle(closed)
       case _ => Malformed)
    case Open(closed, current) =>
      match e
      case Select => Open(closed, current)
      case Transfer(mosi, _) => Open(closed, current + [mosi])
      case Release => Idle(closed + [current])
      case Deselect => Idle(closed + [current])
  }

  function Replay(f: Framing, evs: seq<Event>): Framing
    decreases |evs|
  {
    if evs == [] then f else Replay(Step(f, evs[0]), evs[1..])
  }

  /** The transactions a run of events frames, starting with chip select high. */
  function Frames(evs: seq<Event>): Framing
  {
    Replay(Idle([]), evs)
  }

  /** A run of events is well formed when every byte is inside a
      transaction and chip select is high at its end. */
  predicate WellFormed(evs: seq<Event>)
  {
    Frames(evs).Idle?
  }

  /** The driver's own discipline: it selects the chip only while chip
      select is high, so select and release alternate. */
  predicate Alternates(evs: seq<Event>)
  {
    forall i :: 0 <= i < |evs| && evs[i].Select? ==> Frames(evs[..i]).Idle?
  }

  lemma {:induction false} ReplayAppend(f: Framing, a: seq<Event>, b: seq<Event>)
    ensures Replay(f, a + b) == Replay(Replay(f, a), b)
    decreases |a|
  {
    if a == [] {
      assert a + b == b;
    } else {
      assert (a + b)[0] == a[0];
      assert (a + b)[1..] == a[1..] + b;
      ReplayAppend(Step(f, a[0]), a[1..], b);
    }
  }

  lemma {:induction false} ReplayMalformed(evs: seq<Event>)
    ensures Replay(Malformed, evs) == Malformed
    decreases |evs|
  {
    if evs != [] {
      ReplayMalformed(evs[1..]);
    }
  }

  /** Inside an open transaction, transfers only extend the current frame. */
  lemma {:induction false} ReplayTransfers(closed: seq<seq<Byte>>, current: seq<Byte>, t: seq<Event>)
    requires forall i :: 0 <= i < |t| ==> t[i].Transfer?
    ensures Replay(Open(closed, current), t) == Open(closed, current + Sent(t))
    decreases |t|
  {
    if t == [] {
      assert current + Sent(t) == current;
    } else {
      ReplayTransfers(closed, current + [t[0].mosi], t[1..]);
      assert current + [t[0].mosi] + Sent(t[1..]) == current + Sent(t);
    }
  }

  /** The framing of a transaction up to its i-th byte: open, with the first
      i bytes sent. */
  lemma OpenedThenStreamed(chip: Chip, history: seq<Event>, bytes: seq<Byte>, i: nat)
    requires i <= |bytes|
    ensures Replay(Idle([]), [Select] + Stream(chip, history + [Select], bytes)[..i]) == Open([], bytes[..i])
  {
    var prefix := Stream(chip, history + [Select], bytes)[..i];
    ReplayAppend(Idle([]), [Select], prefix);
    assert Replay(Idle([]), [Select]) == Open([], []) by {
      assert [Select][1..] == [];
    }
    ReplayTransfers([], [], prefix);
    TransfersSent(prefix);
    assert Sent(prefix) == bytes[..i];
  }

  /** Of a run of transfers, Sent is the bytes sent, one per event. */
  lemma {:induction false} TransfersSent(t: seq<Event>)
    requires forall i :: 0 <= i < |t| ==> t[i].Transfer?
    ensures |Sent(t)| == |t|
    ensures forall i :: 0 <= i < |t| ==> Sent(t)[i] == t[i].mosi
    decreases |t|
  {
    if t != [] {
      TransfersSent(t[1..]);
    }
  }

  /** The framing of a complete transaction: one closed frame of `bytes`. */
  lemma ClosedFrame(chip: Chip, history: seq<Event>, bytes: seq<Byte>)
    ensures var t := [Select] + Stream(chip, history + [Select], bytes) + [Release];
      && Frames(t) == Idle([bytes])
      && |Received(t)| == |bytes|
      && Answered(chip, history, t)
  {
    var body := Stream(chip, history + [Select], bytes);
    OpenedThenStreamed(chip, history, bytes, |bytes|);
    assert body[..|bytes|] == body;
    assert bytes[..|bytes|] == bytes;
    ReplayAppend(Idle([]), [Select] + body, [Release]);
    assert Replay(Open([], bytes), [Release]) == Idle([bytes]) by {
      assert [Release][1..] == [];
    }
    ReceivedAppend([Select] + body, [Release]);
    ReceivedAppend([Select], body);
    assert Answered(chip, history, [Select]);
    AnsweredAppend(chip, history, [Select], body);
    AnsweredAppend(chip, history, [Select] + body, [Release]);
  }

  /** `f` with the transactions `prior` closed before it. */
  function Behind(prior: seq<seq<Byte>>, f: Framing): Framing
  {
    match f
    case Idle(closed) => Idle(prior + closed)
    case Open(closed, current) => Open(prior + closed, current)
    case Malformed => Malformed
  }

  lemma {:induction false} ReplayBehind(prior: seq<seq<Byte>>, f: Framing, evs: seq<Event>)
    ensures Replay(Behind(prior, f), evs) == Behind(prior, Replay(f, evs))
    decreases |evs|
  {
    if evs != [] {
      if f.Open? && (evs[0].Release? || evs[0].Deselect?) {
        assert prior + f.closed + [f.current] == prior + (f.closed + [f.current]);
      }
      assert Step(Behind(prior, f), evs[0]) == Behind(prior, Step(f, evs[0]));
      ReplayBehind(prior, Step(f, evs[0]), evs[1..]);
    }
  }

  /** Driving chip select high while it is already high changes nothing the
      chip sees. */
  lemma DeselectIdle(evs: seq<Event>)
    requires WellFormed(evs)
    ensures Frames(evs + [Deselect]) == Frames(evs)
  {
    ReplayAppend(Idle([]), evs, [Deselect]);
    assert [Deselect][1..] == [];
  }

  /** Once chip select is high again, what follows is framed on its own:
      the transactions of `a` followed by those of `b`. */
  lemma FramesAppend(a: seq<Event>, b: seq<Event>)
    requires WellFormed(a)
    ensures Frames(a + b) == Behind(Frames(a).closed, Frames(b))
  {
    ReplayAppend(Idle([]), a, b);
    assert Frames(a) == Behind(Frames(a).closed, Idle([]));
    ReplayBehind(Frames(a).closed, Idle([]), b);
  }

  /** Two well-formed runs make a well-formed run whose transactions are
      those of the first, then those of the second. */
  lemma WellFormedAppend(a: seq<Event>, b: seq<Event>)
    requires WellFormed(a) && WellFormed(b)
    ensures WellFormed(a + b)
    ensures Frames(a + b).closed == Frames(a).closed + Frames(b).closed
  {
    FramesAppend(a, b);
  }

  /** While a transaction is open, a further select changes nothing the chip
      sees, but it breaks the driver's alternation for good. */
  lemma SelectWhileOpen(a: seq<Event>, b: seq<Event>)
    requires Frames(a).Open?
    requires b != [] && b[0] == Select
    ensures Frames(a + [Select]) == Frames(a)
    ensures forall c :: !Alternates(a + b + c)
  {
    ReplayAppend(Idle([]), a, [Select]);
    assert [Select][1..] == [];
    forall c
      ensures !Alternates(a + b + c)
    {
      var evs := a + b + c;
      assert evs[|a|] == Select;
      assert evs[..|a|] == a;
    }
  }

  /** A transaction alternates: its only select comes first, with chip
      select high. */
  lemma BracketAlternates(body: seq<Event>)
    requires forall i :: 0 <= i < |body| ==> body[i].Transfer?
    ensures Alternates([Select] + body + [Release])
  {
    var t := [Select] + body + [Release];
    forall i | 0 <= i < |t| && t[i].Select?
      ensures Frames(t[..i]).Idle?
    {
      assert i == 0;
      assert t[..0] == [];
    }
  }

  /** Two alternating runs, the first well formed, alternate together. */
  lemma AlternatesAppend(a: seq<Event>, b: seq<Event>)
    requires WellFormed(a) && Alternates(a) && Alternates(b)
    ensures Alternates(a + b)
  {
    forall i | 0 <= i < |a + b| && (a + b)[i].Select?
      ensures Frames((a + b)[..i]).Idle?
    {
      if i < |a| {
        assert (a + b)[..i] == a[..i];
      } else {
        var k := i - |a|;
        assert b[k].Select?;
        assert (a + b)[..i] == a + b[..k];
        FramesAppend(a, b[..k]);
      }
    }
  }

  /** A transaction that starts while an earlier one is still open: its
      select changes nothing, its bytes extend the open transaction, and its
      release closes both as one. */
  lemma TransactionOnOpen(chip: Chip, history: seq<Event>, bytes: seq<Byte>, closed: seq<seq<Byte>>, current: seq<Byte>)
    ensures Replay(Open(closed, current), Transaction(chip, history, bytes)) == Idle(closed + [current + bytes])
  {
    var body := Stream(chip, history + [Select], bytes);
    assert Transaction(chip, history, bytes) == [Select] + (body + [Release]);
    ReplayAppend(Open(closed, current), [Select], body + [Release]);
    assert [Select][1..] == [];
    ReplayAppend(Open(closed, current), body, [Release]);
    ReplayTransfers(closed, current, body);
    assert [Release][1..] == [];
  }

  /** The history the chip has seen when it answers the i-th byte of a
      transaction. */
  ghost function AnswerHistory(chip: Chip, history: seq<Event>, bytes: seq<Byte>, i: nat): seq<Event>
    requires i <= |bytes|
  {
    history + [Select] + Stream(chip, history + [Select], bytes)[..i]
  }

  /** The i-th byte received in a transaction is the chip's answer to the
      i-th byte sent, at a moment when it sees the transaction open with the
      first i bytes sent. */
  lemma TransactionAnswers(chip: Chip, history: seq<Event>, bytes: seq<Byte>, i: nat)
    requires WellFormed(history)
    requires i < |bytes|
    ensures Received(Transaction(chip, history, bytes))[i] == chip(AnswerHistory(chip, history, bytes, i), bytes[i])
    ensures Frames(AnswerHistory(chip, history, bytes, i)) == Open(Frames(history).closed, bytes[..i])
  {
    TransactionReceived(chip, history, bytes);
    var body := Stream(chip, history + [Select], bytes);
    assert body[i].miso == chip((history + [Select]) + body[..i], bytes[i]);
    OpenedWithin(chip, history, bytes, i);
  }

  lemma TransactionReceived(chip: Chip, history: seq<Event>, bytes: seq<Byte>)
    ensures Received(Transaction(chip, history, bytes)) == Received(Stream(chip, history + [Select], bytes))
  {
    var body := Stream(chip, history + [Select], bytes);
    assert Transaction(chip, history, bytes) == [Select] + body + [Release];
    ReceivedAppend([Select] + body, [Release]);
    ReceivedAppend([Select], body);
    assert Received([Select]) == [] by { assert [Select][1..] == []; }
    assert Received([Release]) == [] by { assert [Release][1..] == []; }
  }

  lemma OpenedWithin(chip: Chip, history: seq<Event>, bytes: seq<Byte>, i: nat)
    requires WellFormed(history)
    requires i <= |bytes|
    ensures Frames(AnswerHistory(chip, history, bytes, i)) == Open(Frames(history).closed, bytes[..i])
  {
    OpenedThenStreamed(chip, history, bytes, i);
    OpenAfter(history, Stream(chip, history + [Select], bytes)[..i], bytes[..i]);
  }

  /** A transaction opened after a well-formed log is seen on top of that
      log's closed transactions. */
  lemma OpenAfter(history: seq<Event>, body: seq<Event>, current: seq<Byte>)
    requires WellFormed(history)
    requires Frames([Select] + body) == Open([], current)
    ensures Frames(history + [Select] + body) == Open(Frames(history).closed, current)
  {
    FramesAppend(history, [Select] + body);
    assert history + [Select] + body == history + ([Select] + body);
    assert Frames(history).closed + [] == Frames(history).closed;
  }

  /** All the bytes of a list of transactions, one after the other. */
  function Flatten(frames: seq<seq<Byte>>): seq<Byte>
    decreases |frames|
  {
    if frames == [] then [] else Flatten(frames[..|frames| - 1]) + frames[|frames| - 1]
  }

  /** The bytes a framing has seen: its closed transactions, then the open one. */
  function Content(f: Framing): seq<Byte>
  {
    match f
    case Idle(closed) => Flatten(closed)
    case Open(closed, current) => Flatten(closed) + current
    case Malformed => []
  }

  lemma {:induction false} ReplayContent(f: Framing, evs: seq<Event>)
    requires Replay(f, evs) != Malformed
    ensures Content(Replay(f, evs)) == Content(f) + Sent(evs)
    decreases |evs|
  {
    if evs == [] {
      assert Content(f) + Sent(evs) == Content(f);
    } else {
      var g := Step(f, evs[0]);
      var head := if evs[0].Transfer? then [evs[0].mosi] else [];
      assert Replay(f, evs) == Replay(g, evs[1..]);
      if g == Malformed {
        ReplayMalformed(evs[1..]);
      }
      ReplayContent(g, evs[1..]);
      StepContent(f, evs[0]);
      assert Sent(evs) == head + Sent(evs[1..]);
      assert Content(g) + Sent(evs[1..]) == (Content(f) + head) + Sent(evs[1..]);
    }
  }

  /** One event adds to what the chip has seen exactly the byte it sends. */
  lemma StepContent(f: Framing, e: Event)
    requires Step(f, e) != Malformed
    ensures Content(Step(f, e)) == Content(f) + (if e.Transfer? then [e.mosi] else [])
  {
    if f.Open? && !e.Transfer? {
      assert (f.closed + [f.current])[..|f.closed|] == f.closed;
    }
  }

  /** On a well-formed run, the byte stream the chip sees is exactly its
      transactions laid end to end: no byte is sent outside a transaction. */
  lemma SentIsFrames(evs: seq<Event>)
    requires WellFormed(evs)
    ensures Sent(evs) == Flatten(Frames(evs).closed)
  {
    ReplayContent(Idle([]), evs);
  }
}
