/** What every request of a session carries: the argv it began with, but for its resume flags. */
module Resumed {
  import opened Prelude
  import opened Resume
  import opened ResumeProps
  import opened CheckpointCache

  /** The argv after the injections these checkpoint hints lead to, one after another. */
  function InjectAll(args: seq<Tok>, hints: seq<Hint>): seq<Tok> {
    if hints == [] then args
    else
      var last := hints[|hints| - 1];
      Inject(InjectAll(args, hints[..|hints| - 1]), ResumePoint(last), last.lastSeq + 1)
  }

  /** `body` is the session's own argv, resumed at any number of hints. */
  ghost predicate Carries(args: seq<Tok>, body: seq<Tok>) {
    exists hints :: body == InjectAll(args, hints)
  }

  lemma CarriesSelf(args: seq<Tok>)
    ensures Carries(args, args)
  {
    assert InjectAll(args, []) == args;
  }

  lemma CarriesStep(args: seq<Tok>, body: seq<Tok>, store: Store, now: int, ttl: int)
    requires Carries(args, body)
    ensures Carries(args, ResumeStep(store, body, now, ttl).args)
  {
    hide Inject, PlexSession, InitialSeek, FloatEq, ResumePoint;
    var hints :| body == InjectAll(args, hints);
    var step := ResumeStep(store, body, now, ttl);
    if step.resumed {
      var more := hints + [Live(store, PlexSession(body), now, ttl).value];
      assert more[..|hints|] == hints;
      assert step.args == InjectAll(args, more);
    }
  }

  /** The argv starts where the last hint says, with the segment after the last finished one. */
  predicate StartsAt(body: seq<Tok>, h: Hint) {
    InitialSeek(body) == Millis(ResumePoint(h)) && StartNumber(body) == Some(Count(h.lastSeq + 1))
  }

  /**
   Whatever happened in between, the argv names the same Plex session, and all tokens other than
   the resume flags stand in their order; when it was resumed, it starts where the last hint
   says, whatever the hints before it said.
   */
  lemma CarriesMeans(args: seq<Tok>, body: seq<Tok>)
    requires WellFormed(args) && INPUT in args && Carries(args, body)
    ensures WellFormed(body) && INPUT in body
    ensures PlexSession(body) == PlexSession(args)
    ensures Others(body, NOTHING_MET) == Others(args, NOTHING_MET)
    ensures exists hints :: body == InjectAll(args, hints) && (hints != [] ==> StartsAt(body, hints[|hints| - 1]))
  {
    hide WellFormed, PlexSession, Others, StartsAt, Inject, InjectAll;
    var hints: seq<Hint> :| body == InjectAll(args, hints);
    HintsMean(args, hints);
  }

  lemma {:induction false} HintsMean(args: seq<Tok>, hints: seq<Hint>)
    requires WellFormed(args) && INPUT in args
    ensures var body := InjectAll(args, hints);
            && WellFormed(body) && INPUT in body
            && PlexSession(body) == PlexSession(args)
            && Others(body, NOTHING_MET) == Others(args, NOTHING_MET)
            && (hints != [] ==> StartsAt(body, hints[|hints| - 1]))
  {
    hide WellFormed, PlexSession, Others, InitialSeek, StartNumber, Inject, Millis, ResumePoint;
    if hints != [] {
      var last := hints[|hints| - 1];
      var before := InjectAll(args, hints[..|hints| - 1]);
      HintsMean(args, hints[..|hints| - 1]);
      InjectionMeans(before, ResumePoint(last), last.lastSeq + 1);
      InjectedWellFormed(before, ResumePoint(last), last.lastSeq + 1);
      SessionKept(before, ResumePoint(last), last.lastSeq + 1);
    }
  }
}
