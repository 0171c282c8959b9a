/** The status machine and the phone's question together: what becomes of a pushed
    question when its dialog vanishes from the screen. */
module AgentToPhone {
  import opened Common
  import opened AgentStateMachine
  import AgentDriver
  import AgentLaws
  import RemoteAnswer

  /** A question pushed for a screen-set block is resolved by the effect run after the
      third missed reading exactly if that reading shows no pattern at all; an idle
      reading leaves the question open on the phone. */
  lemma VanishedDialogResolvesIff(a: Agent, e: AgentDriver.Event, now: Time,
                                  h: RemoteAnswer.Hook, inp: RemoteAnswer.Inputs)
    requires AgentLaws.Inv(a) && AgentDriver.ScreenBlocked(a) && AgentLaws.IsMiss(e)
    requires h.prevStatus == a.status && h.pushedId.Some?
    requires inp.status == AgentDriver.Step(a, e, now).status && inp.status != Blocked
    ensures a.blockedMissCount == AgentStateMachine.BLOCKED_MISS_THRESHOLD - 1
    ensures
      var g := RemoteAnswer.Step(h, RemoteAnswer.RunEffect(inp));
      && (e.screen.status == None <==>
            exists answer :: g.sent == h.sent + [RemoteAnswer.AgentResolved(h.pushedId.value, answer)])
      && (e.screen.status == Some(Idle) <==> g.sent == h.sent && g.pushedId == h.pushedId)
  {
    AgentLaws.WatchedStep(a, e, now);
    RemoteAnswer.LeavingResolvesIff(h, inp);
  }
}
