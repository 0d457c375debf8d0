/** Stretches of a run in which the rover does nothing but handle one command. */
module RoverRuns {
  import opened Options
  import opened Commands
  import opened Rover

  /** Nothing admitted is still waiting for its RECEIVED acknowledgement. */
  predicate Drained(s: State) {
    s.receiver.inFlight.None? && s.queues == EMPTY && s.batch.acks == []
  }

  lemma AfterNone(evictS: int)
    ensures After(evictS, []) == INITIAL
  {
  }

  /** One command through the whole pipeline. */
  function Handled(c: Command, env: Env): seq<Event> {
    [Arrive(Some(c)), Enqueue, Swap, SendReceived, Dispatch(env)]
  }

  lemma AfterAppend(evictS: int, es: seq<Event>, e: Event)
    ensures After(evictS, es + [e]) == Next(evictS, After(evictS, es), e)
  {
    assert (es + [e])[..|es|] == es;
  }

  /** The states a command passes through when nothing else happens. */
  lemma Passes(evictS: int, s: State, c: Command, env: Env)
    requires Drained(s) && s.batch == EMPTY && Admits(s.receiver, Some(c))
    ensures var r, x := Admit(s.receiver, c), s.executor;
            var q := Queues([ReceivedAck(c)], [c]);
            var s1 := State(r, EMPTY, EMPTY, x);
            var s2 := State(r.(inFlight := None), q, EMPTY, x);
            var s3 := State(r.(inFlight := None), EMPTY, q, x);
            var s4 := State(r.(inFlight := None), EMPTY, Queues([], [c]), Send(x, ReceivedAck(c)));
            && Next(evictS, s, Arrive(Some(c))) == s1
            && Next(evictS, s1, Enqueue) == s2
            && Next(evictS, s2, Swap) == s3
            && Next(evictS, s3, SendReceived) == s4
            && Next(evictS, s4, Dispatch(env))
               == State(r.(inFlight := None), EMPTY, EMPTY, Run(Send(x, ReceivedAck(c)), c, env))
  {
    hide Run, Send, Swept;
    assert Push(EMPTY, c) == Queues([ReceivedAck(c)], [c]);
  }

  lemma AfterHandled(evictS: int, es: seq<Event>, c: Command, env: Env)
    requires var s := After(evictS, es);
             Drained(s) && s.batch == EMPTY && Admits(s.receiver, Some(c))
    ensures var s, t := After(evictS, es), After(evictS, es + Handled(c, env));
            && t.receiver == Admit(s.receiver, c).(inFlight := None)
            && t.queues == t.batch == EMPTY
            && t.executor == Run(Send(s.executor, ReceivedAck(c)), c, env)
  {
    hide After, Next, Run, Send, Admit, Admits;
    Passes(evictS, After(evictS, es), c, env);
    AfterAppend(evictS, es, Arrive(Some(c)));
    AfterAppend(evictS, es + [Arrive(Some(c))], Enqueue);
    AfterAppend(evictS, es + [Arrive(Some(c))] + [Enqueue], Swap);
    AfterAppend(evictS, es + [Arrive(Some(c))] + [Enqueue] + [Swap], SendReceived);
    AfterAppend(evictS, es + [Arrive(Some(c))] + [Enqueue] + [Swap] + [SendReceived], Dispatch(env));
    assert es + Handled(c, env) == es + [Arrive(Some(c))] + [Enqueue] + [Swap] + [SendReceived] + [Dispatch(env)];
  }
}
