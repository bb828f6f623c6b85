/**
 The asynchronous event writer (internal/events/jsonline.go): emitters push onto a
 channel of 64 events without blocking, a background goroutine hands them to the inner
 writer, and Close drains what is left.
 */
module EventWriter {
  import opened Sequences

  const CAPACITY := 64

  // ------------------------------------------------------- under any interleaving

  /** Where the background goroutine is. */
  datatype Pc =
    | Selecting
    | Holding(event: nat)          // received, not yet handed to the inner writer
    | Draining                     // saw `done`; about to look at the channel
    | DrainHolding(event: nat)
    | Gone
  {
    function Held(): seq<nat> {
      if Holding? || DrainHolding? then [event] else []
    }
  }

  /** Events are named by their position among those emitted. */
  datatype Writer<!T> = Writer(
    emitted: seq<T>,
    queue: seq<nat>,
    pc: Pc,
    written: seq<nat>,             // handed to the inner writer
    dropped: nat,
    accepted: seq<nat>,            // those that found room
    done: bool,
    mark: nat                      // how many were accepted when Close began
  )

  datatype Step<T> =
    | Emit(e: T)
    | Receive                      // select chose the channel
    | SeeDone                      // select chose `done`
    | Hand                         // the inner writer's Emit
    | Drain                        // the loop condition while draining
    | Close

  function Start<T>(): Writer<T> {
    Writer([], [], Selecting, [], 0, [], false, 0)
  }

  function Do<T>(w: Writer<T>, a: Step<T>): Writer<T> {
    match a
    case Emit(e) =>
      var n := |w.emitted|;
      if |w.queue| < CAPACITY
      then w.(emitted := w.emitted + [e], queue := w.queue + [n], accepted := w.accepted + [n])
      else w.(emitted := w.emitted + [e], dropped := w.dropped + 1)
    case Receive =>
      if w.pc.Selecting? && w.queue != [] then w.(pc := Holding(w.queue[0]), queue := w.queue[1..]) else w
    case SeeDone =>
      if w.pc.Selecting? && w.done then w.(pc := Draining) else w
    case Hand =>
      match w.pc {
        case Holding(e) => w.(pc := Selecting, written := w.written + [e])
        case DrainHolding(e) => w.(pc := Draining, written := w.written + [e])
        case _ => w
      }
    case Drain =>
      if !w.pc.Draining? then w
      else if w.queue != [] then w.(pc := DrainHolding(w.queue[0]), queue := w.queue[1..])
      else w.(pc := Gone)
    case Close =>
      if w.done then w else w.(done := true, mark := |w.accepted|)
  }

  function Run<T>(steps: seq<Step<T>>): Writer<T> {
    if steps == [] then Start() else Do(Run(steps[..|steps| - 1]), steps[|steps| - 1])
  }

  /** What was accepted is written, in hand or queued, in that order. */
  ghost predicate Inv<T>(w: Writer<T>) {
    && w.accepted == w.written + w.pc.Held() + w.queue
    && |w.emitted| == |w.accepted| + w.dropped
    && |w.queue| <= CAPACITY
    && Increasing(w.accepted) && Below(w.accepted, |w.emitted|)
    && (w.pc.Draining? || w.pc.DrainHolding? || w.pc.Gone? ==> w.done)
    && (w.pc.Gone? ==> w.mark <= |w.written|)
    && w.mark <= |w.accepted|
  }

  lemma StepKeepsLine<T>(w: Writer<T>, a: Step<T>)
    requires w.accepted == w.written + w.pc.Held() + w.queue
    ensures var w' := Do(w, a); w'.accepted == w'.written + w'.pc.Held() + w'.queue
  {
  }

  lemma StepKeeps<T>(w: Writer<T>, a: Step<T>)
    requires Inv(w)
    ensures Inv(Do(w, a))
  {
    StepKeepsLine(w, a);
    AppendAbove(w.accepted, |w.emitted|);
  }

  lemma {:induction false} RunKeeps<T>(steps: seq<Step<T>>)
    ensures Inv(Run(steps))
  {
    if steps != [] {
      RunKeeps(steps[..|steps| - 1]);
      StepKeeps(Run(steps[..|steps| - 1]), steps[|steps| - 1]);
    }
  }

  /** The events handed to the inner writer. */
  ghost function Output<T>(w: Writer<T>): seq<T>
    requires Below(w.written, |w.emitted|)
  {
    Select(w.emitted, w.written)
  }

  /**
   In every run the inner writer gets an order-keeping, duplicate-free selection of the
   emitted events; emitted = written + queued + dropped + at most one in hand; the
   channel never holds more than 64.
   */
  lemma WrittenInOrder<T>(steps: seq<Step<T>>)
    ensures
      var w := Run(steps);
      && Below(w.written, |w.emitted|) && Subsequence(Output(w), w.emitted)
      && |w.emitted| == |w.written| + |w.queue| + w.dropped + |w.pc.Held()|
      && |w.pc.Held()| <= 1 && |w.queue| <= CAPACITY
  {
    RunKeeps(steps);
    var w := Run(steps);
    assert forall i | 0 <= i < |w.written| :: w.written[i] == w.accepted[i];
    assert Picks(Output(w), w.emitted, w.written);
  }

  /**
   Once the background goroutine is gone, every event accepted before Close began has been
   written, whatever was emitted meanwhile; and if nothing more was accepted, the channel
   is empty and all accepted events are written.
   */
  lemma CloseDrains<T>(steps: seq<Step<T>>)
    ensures
      var w := Run(steps);
      w.pc.Gone? ==>
        && w.mark <= |w.accepted| && w.accepted[..w.mark] <= w.written
        && (w.mark == |w.accepted| ==> w.written == w.accepted && w.queue == [])
  {
    RunKeeps(steps);
    var w := Run(steps);
    if w.pc.Gone? {
      assert w.accepted[..w.mark] == w.written[..w.mark];
    }
  }

  lemma MarkStep<T>(w: Writer<T>, a: Step<T>)
    requires w.done
    ensures Do(w, a).done && Do(w, a).mark == w.mark && w.accepted <= Do(w, a).accepted
  {
  }

  lemma {:induction false} MarkStays<T>(before: seq<Step<T>>, after: seq<Step<T>>)
    requires Step.Close !in before
    ensures
      var w := Run(before + [Step.Close] + after);
      w.done && w.mark == |Run(before).accepted| && Run(before).accepted <= w.accepted
    decreases |after|
  {
    if after == [] {
      NotDone(before);
      RunNext(before, Step.Close);
      assert before + [Step.Close] + after == before + [Step.Close];
    } else {
      hide Do;
      var init, a := after[..|after| - 1], after[|after| - 1];
      MarkStays(before, init);
      MarkStep(Run(before + [Step.Close] + init), a);
      RunNext(before + [Step.Close] + init, a);
      assert before + [Step.Close] + after == before + [Step.Close] + init + [a];
    }
  }

  lemma {:induction false} NotDone<T>(steps: seq<Step<T>>)
    requires Step.Close !in steps
    ensures !Run(steps).done
  {
    if steps != [] {
      NotDone(steps[..|steps| - 1]);
    }
  }

  /**
   Close after any run, and then any further steps: once the background goroutine is gone,
   every event the channel had accepted when Close was called is written, in order.
   */
  lemma ClosedRunDrains<T>(before: seq<Step<T>>, after: seq<Step<T>>)
    requires Step.Close !in before
    ensures
      var w := Run(before + [Step.Close] + after);
      w.pc.Gone? ==> Run(before).accepted <= w.written
  {
    MarkStays(before, after);
    CloseDrains(before + [Step.Close] + after);
    var w := Run(before + [Step.Close] + after);
    if w.pc.Gone? {
      assert Run(before).accepted == w.accepted[..w.mark];
    }
  }

  // -------------------------------------------------------------------- class

  lemma RunNext<T>(steps: seq<Step<T>>, a: Step<T>)
    ensures Run(steps + [a]) == Do(Run(steps), a)
  {
  }

  /** Everything accepted is written, in hand or queued, as events. */
  lemma Accepted<T>(w: Writer<T>)
    requires Inv(w) && w.pc.Held() == []
    ensures Below(w.written, |w.emitted|) && Below(w.queue, |w.emitted|)
    ensures Select(w.emitted, w.accepted) == Select(w.emitted, w.written) + Select(w.emitted, w.queue)
  {
    assert w.written + w.pc.Held() + w.queue == w.written + w.queue;
    SelectConcat(w.emitted, w.written, w.queue);
  }

  /** Handing over the oldest event of the queue. */
  lemma Handed<T>(w: Writer<T>, take: Step<T>)
    requires Below(w.queue, |w.emitted|) && Below(w.written, |w.emitted|) && w.queue != []
    requires (take.Receive? && w.pc.Selecting?) || (take.Drain? && w.pc.Draining?)
    ensures
      var w' := Do(Do(w, take), Hand);
      && w'.pc == w.pc && w'.emitted == w.emitted && w'.done == w.done
      && Below(w'.queue, |w'.emitted|) && Below(w'.written, |w'.emitted|)
      && Select(w'.emitted, w'.queue) == Select(w.emitted, w.queue)[1..]
      && Select(w'.emitted, w'.written) == Select(w.emitted, w.written) + [Select(w.emitted, w.queue)[0]]
  {
  }

  /**
   The writer's own methods, each as the steps above that it takes with nothing in between.
   `steps` is the run so far, and `Valid` says that the fields are what that run leaves.
   */
  class AsyncWriter<T> {
    var events: seq<T>
    var done: bool
    var out: seq<T>            // what the inner writer was handed
    ghost var steps: seq<Step<T>>

    /** The fields show `w`. */
    ghost predicate Shows(w: Writer<T>)
      reads this
    {
      && Below(w.queue, |w.emitted|) && Below(w.written, |w.emitted|)
      && events == Select(w.emitted, w.queue) && out == Select(w.emitted, w.written) && done == w.done
    }

    ghost predicate Valid()
      reads this
    {
      Shows(Run(steps)) && (Run(steps).pc.Selecting? || Run(steps).pc.Gone?)
    }

    /** The background goroutine has not returned. */
    ghost predicate Running()
      reads this
    {
      Run(steps).pc.Selecting?
    }

    constructor ()
      ensures Valid() && Running() && steps == []
      ensures events == [] && !done && out == []
    {
      events, done, out, steps := [], false, [], [];
    }

    /** The step Emit of the run. */
    method Emit(e: T) returns (queued: bool)
      requires Valid()
      modifies this`events, this`steps
      ensures Valid() && steps == old(steps) + [Step.Emit(e)]
      ensures queued <==> |old(events)| < CAPACITY
      ensures events == if queued then old(events) + [e] else old(events)
    {
      ghost var w := Run(steps);
      SelectGrows(w.emitted, e, w.queue);
      SelectGrows(w.emitted, e, w.written);
      RunNext(steps, Step.Emit(e));
      queued := |events| < CAPACITY;
      if queued {
        events := events + [e];
      }
      steps := steps + [Step.Emit(e)];
    }

    /** The oldest event goes to the inner writer. */
    method HandOver(ghost take: Step<T>)
      requires events != [] && Shows(Run(steps))
      requires (take.Receive? && Run(steps).pc.Selecting?) || (take.Drain? && Run(steps).pc.Draining?)
      modifies this`events, this`out, this`steps
      ensures steps == old(steps) + [take, Hand] && Shows(Run(steps)) && Run(steps).pc == old(Run(steps).pc)
      ensures Run(steps).emitted == old(Run(steps).emitted)
      ensures out == old(out) + [old(events)[0]] && events == old(events)[1..]
    {
      hide Do, Select;
      ghost var w := Run(steps);
      RunNext(steps, take);
      RunNext(steps + [take], Hand);
      assert steps + [take] + [Hand] == steps + [take, Hand];
      Handed(w, take);
      var e := events[0];
      events := events[1..];
      out := out + [e];
      steps := steps + [take, Hand];
    }

    /** The loop after `done` was seen. */
    method DrainAll()
      requires Shows(Run(steps)) && Run(steps).pc.Draining?
      modifies this`events, this`out, this`steps
      ensures Shows(Run(steps)) && Run(steps).pc.Gone? && old(steps) <= steps
      ensures Run(steps).emitted == old(Run(steps).emitted)
      ensures events == [] && out == old(out) + old(events)
    {
      hide Select;
      while |events| > 0
        invariant out + events == old(out) + old(events)
        invariant Shows(Run(steps)) && Run(steps).pc.Draining? && old(steps) <= steps
        invariant Run(steps).emitted == old(Run(steps).emitted)
      {
        hide Do, Run;
        HandOver(Drain);
      }
      RunNext(steps, Drain);
      steps := steps + [Drain];
    }

    /** One turn of the background goroutine's select; false when it has returned. */
    method WriterTurn(choosesDone: bool) returns (running: bool)
      requires Valid() && Running()
      modifies this`events, this`out, this`steps
      ensures Valid() && Running() == running && old(steps) <= steps
      ensures Run(steps).emitted == old(Run(steps).emitted)
      ensures running <==> !(choosesDone && done)
      ensures running ==>
                if old(events) == [] then events == old(events) && out == old(out)
                else out == old(out) + [old(events)[0]] && events == old(events)[1..]
      ensures !running ==> events == [] && out == old(out) + old(events)
    {
      hide Select;
      if choosesDone && done {
        RunNext(steps, SeeDone);
        steps := steps + [SeeDone];
        DrainAll();
        return false;
      }
      if |events| > 0 {
        HandOver(Receive);
      }
      return true;
    }

    /**
     Close with no emitter left: everything queued is written, in order, so that in the end
     every event that was ever accepted has been written.
     */
    method Close()
      requires Valid() && Running() && !done
      modifies this
      ensures Valid() && !Running() && old(steps) + [Step.Close] <= steps
      ensures done && events == [] && out == old(out) + old(events)
      ensures
        var w := Run(steps);
        Below(w.accepted, |w.emitted|) && out == Select(w.emitted, w.accepted)
    {
      RunNext(steps, Step.Close);
      done := true;
      steps := steps + [Step.Close];
      var running := WriterTurn(true);
      RunKeeps(steps);
      Accepted(Run(steps));
    }
  }
}
