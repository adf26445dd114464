/** What the steps of a session's strand change: their own session, and what goes with it. */
module StrandSteps {
  import opened Basics
  import opened Ratings
  import opened Results
  import opened Sessions
  import opened Protocol
  import Sim = Simulations

  // A step of one session's strand.
  predicate OnStrand(step: Step) {
    step.Start? || step.Deliver? || step.Timer? || step.Save? || step.NameNext? || step.Rate? || step.Erase?
  }

  // A strand step replaces its session, or does nothing.
  lemma StartAndTimerReplace(maxTicks: nat, g: System, step: Step)
    requires (step.Start? || step.Timer?) && step.id in g.sessions
    ensures var s, next := g.sessions[step.id], Next(maxTicks, g, step);
            next == g || next == WithSession(g, step.id, Started(s))
            || next == WithSession(g, step.id, Ticked(s, maxTicks))
  {
    hide Started, Ticked;
  }

  lemma DeliverReplaces(maxTicks: nat, g: System, id: SessionId, input: SessionInput)
    requires id in g.sessions
    ensures var next := Next(maxTicks, g, Deliver(id, input));
            next == g || next == WithSession(g, id, Delivered(g.sessions[id], input.command)).(pending := next.pending)
  {
    hide Delivered;
  }

  lemma FinishingReplaces(maxTicks: nat, g: System, step: Step)
    requires (step.NameNext? || step.Rate? || step.Erase?) && step.id in g.sessions
    ensures var s, next := g.sessions[step.id], Next(maxTicks, g, step);
            next == g || next == WithSession(g, step.id, s.(phase := next.sessions[step.id].phase))
                                 .(entries := next.entries, registered := next.registered,
                                   userToSession := next.userToSession)
  {
    hide WithMatch, RecordOf, NameCall, UserIds;
  }

  lemma SaveReplaces(maxTicks: nat, g: System, id: SessionId)
    requires id in g.sessions
    ensures var s, next := g.sessions[id], Next(maxTicks, g, Save(id));
            next == g
            || exists phase :: next == WithSession(g, id, s.(phase := phase))
                                       .(records := next.records, saved := next.saved)
  {
    hide RecordOf, Saved;
  }

  lemma HandlersKeepParticipants(s: Session, maxTicks: nat)
    ensures Started(s).ctx.participants == s.ctx.participants
    ensures Ticked(s, maxTicks).ctx.participants == s.ctx.participants
  {
    hide Sim.SnapshotRows, WinnerOf, Sim.Tick;
  }

  lemma InputsKeepParticipants(s: Session, input: Sim.Input)
    ensures Delivered(s, input).ctx.participants == s.ctx.participants
  {
    hide Sim.Enqueue, Respond;
  }

  lemma UnknownSession(maxTicks: nat, g: System, step: Step)
    requires OnStrand(step) && step.id !in g.sessions
    ensures Next(maxTicks, g, step) == g
  {
    hide Started, Ticked, Delivered, RecordOf, WithMatch, NameCall, Saved, UserIds;
  }
}
