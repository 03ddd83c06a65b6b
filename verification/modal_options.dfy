/**
  Resolution of a modal operator's option list (`K[...]`, `B[...]`,
  `P[...]`, `H[...]`) into a parametrised operator. An option list is
  `None` for the nil list (no brackets) and `Some(options)` otherwise;
  an option is a bare constant or a `key=value` predicate.
 */
module ModalOptions {
  import opened Wrappers
  import opened Terms
  import opened Formulas

  /** A `key=value` option whose key is one of the two names. The functor
      is not inspected, only the arity. */
  predicate KeyedOption(o: Term, name1: string, name2: string) {
    o.Pred? && |o.args| == 2 && (o.args[0] == Str(name1) || o.args[0] == Str(name2))
  }

  /** An option naming the agent: a bare string, or `agent=`/`a=` with a
      string value. */
  predicate AgentOption(o: Term) {
    o.Str? || (KeyedOption(o, "agent", "a") && o.args[1].Str?)
  }

  function AgentName(o: Term): string
    requires AgentOption(o)
  {
    if o.Str? then o.str else o.args[1].str
  }

  /** An option giving the confidence: a bare double, or `confidence=`/`c=`
      with a double value. */
  predicate ConfidenceOption(o: Term) {
    o.Dbl? || (KeyedOption(o, "confidence", "c") && o.args[1].Dbl?)
  }

  function ConfidenceValue(o: Term): real
    requires ConfidenceOption(o)
  {
    if o.Dbl? then o.dbl else o.args[1].dbl
  }

  /** An agent of "self" is the default operator. */
  function NormalizeAgent(a: Option<string>): (r: Option<string>)
    ensures r.Some? <==> a.Some? && a.value != "self"
    ensures r.Some? ==> r == a
  {
    if a.Some? && a.value == "self" then None else a
  }

  function Count(b: bool): nat {
    if b then 1 else 0
  }

  /** The number of options at positions `i..j` that satisfy the predicate. */
  function CountIn(opts: seq<Term>, i: nat, j: nat, p: Term -> bool): (r: nat)
    requires i <= j <= |opts|
    ensures r <= j - i
    decreases j - i
  {
    if i == j then 0 else Count(p(opts[i])) + CountIn(opts, i + 1, j, p)
  }

  function Unrecognized<T>(o: Term): Result<T, QueryError> {
    Err(UnrecognizedOption(o))
  }

  // ---------------------------------------------------------------------
  // K
  // ---------------------------------------------------------------------

  /** The option loop of `createK` from option `i` on, with the agent read
      so far: the first bare string, or an agent-keyed string, sets the
      agent if none is set; anything else is unrecognised. */
  function ReadK(opts: seq<Term>, i: nat, agent: Option<string>): Result<Option<string>, QueryError>
    requires i <= |opts|
    decreases |opts| - i
  {
    if i == |opts| then Ok(agent)
    else
      var o := opts[i];
      if agent.None? && o.Str? then ReadK(opts, i + 1, Some(o.str))
      else if o.Pred? && |o.args| == 2 && agent.None? && o.args[1].Str?
              && (o.args[0] == Str("agent") || o.args[0] == Str("a")) then
        ReadK(opts, i + 1, Some(o.args[1].str))
      else Unrecognized(o)
  }

  function CreateK(options: Option<seq<Term>>): (r: Result<ModalOperator, QueryError>)
    ensures r.Ok? ==> r.value.Knowledge?
    ensures options.None? ==> r == Ok(Knowledge(None))
  {
    match options
    case None => Ok(Knowledge(None))
    case Some(opts) =>
      match ReadK(opts, 0, None)
      case Ok(agent) => Ok(Knowledge(NormalizeAgent(agent)))
      case Err(e) => Err(e)
  }

  /** Once an agent is set, the next option is unrecognised. */
  lemma {:induction false} ReadKAfterAgent(opts: seq<Term>, i: nat, a: string)
    requires i <= |opts|
    ensures ReadK(opts, i, Some(a)) ==
            if i == |opts| then Ok(Some(a)) else Unrecognized(opts[i])
  {
  }

  /**
    `createK` accepts no option or exactly one agent option, yielding the
    agent unless it is "self"; otherwise it reports the first option it
    cannot use.
   */
  lemma {:induction false} CreateKSpec(opts: seq<Term>)
    ensures CreateK(Some(opts)).Ok? <==> |opts| == 0 || (|opts| == 1 && AgentOption(opts[0]))
    ensures CreateK(Some(opts)).Ok? && |opts| == 1 ==>
              CreateK(Some(opts)).value == Knowledge(NormalizeAgent(Some(AgentName(opts[0]))))
    ensures CreateK(Some(opts)) == Ok(Knowledge(None)) <==>
              |opts| == 0 || (|opts| == 1 && AgentOption(opts[0]) && AgentName(opts[0]) == "self")
    ensures CreateK(Some(opts)).Err? ==>
              CreateK(Some(opts)).error == UnrecognizedOption(if AgentOption(opts[0]) then opts[1] else opts[0])
  {
    if |opts| > 0 && AgentOption(opts[0]) {
      ReadKAfterAgent(opts, 1, AgentName(opts[0]));
    }
  }

  // ---------------------------------------------------------------------
  // B
  // ---------------------------------------------------------------------

  datatype BeliefParams = BeliefParams(agent: Option<string>, confidence: Option<real>)

  /** The option loop of `createB` from option `i` on: a bare string or an
      agent-keyed string sets the agent, a bare double or a
      confidence-keyed double sets the confidence, each only once. */
  function ReadB(opts: seq<Term>, i: nat, st: BeliefParams): Result<BeliefParams, QueryError>
    requires i <= |opts|
    decreases |opts| - i
  {
    if i == |opts| then Ok(st)
    else
      var o := opts[i];
      if st.agent.None? && o.Str? then ReadB(opts, i + 1, st.(agent := Some(o.str)))
      else if st.confidence.None? && o.Dbl? then ReadB(opts, i + 1, st.(confidence := Some(o.dbl)))
      else if o.Pred? && |o.args| == 2 && st.agent.None? && o.args[1].Str?
              && (o.args[0] == Str("agent") || o.args[0] == Str("a")) then
        ReadB(opts, i + 1, st.(agent := Some(o.args[1].str)))
      else if o.Pred? && |o.args| == 2 && st.confidence.None? && o.args[1].Dbl?
              && (o.args[0] == Str("confidence") || o.args[0] == Str("c")) then
        ReadB(opts, i + 1, st.(confidence := Some(o.args[1].dbl)))
      else Unrecognized(o)
  }

  function CreateB(options: Option<seq<Term>>): (r: Result<ModalOperator, QueryError>)
    ensures r.Ok? ==> r.value.Belief?
    ensures options.None? ==> r == Ok(Belief(None, None))
  {
    match options
    case None => Ok(Belief(None, None))
    case Some(opts) =>
      match ReadB(opts, 0, BeliefParams(None, None))
      case Ok(st) => Ok(Belief(NormalizeAgent(st.agent), st.confidence))
      case Err(e) => Err(e)
  }

  /** Option `k` finds the slot it names still free: neither the starting
      state nor an option at `i..k` has filled it. */
  predicate FitsB(opts: seq<Term>, i: nat, k: nat, st: BeliefParams)
    requires i <= k < |opts|
  {
    || (AgentOption(opts[k]) && st.agent.None? && CountIn(opts, i, k, AgentOption) == 0)
    || (ConfidenceOption(opts[k]) && st.confidence.None? && CountIn(opts, i, k, ConfidenceOption) == 0)
  }

  /** The state after option `o` has filled the slot it names. */
  function FillB(st: BeliefParams, o: Term): BeliefParams {
    if AgentOption(o) then st.(agent := Some(AgentName(o)))
    else if ConfidenceOption(o) then st.(confidence := Some(ConfidenceValue(o)))
    else st
  }

  /** Reading a fitting first option moves the free slots along. */
  lemma {:induction false} FitsBShift(opts: seq<Term>, i: nat, k: nat, st: BeliefParams)
    requires i < k < |opts| && FitsB(opts, i, i, st)
    ensures FitsB(opts, i, k, st) <==> FitsB(opts, i + 1, k, FillB(st, opts[i]))
  {
    assert CountIn(opts, i, k, AgentOption) == Count(AgentOption(opts[i])) + CountIn(opts, i + 1, k, AgentOption);
    assert CountIn(opts, i, k, ConfidenceOption) == Count(ConfidenceOption(opts[i])) + CountIn(opts, i + 1, k, ConfidenceOption);
  }

  /** The option loop of `createB` reads a fitting option and rejects one
      that does not fit. */
  lemma {:induction false} ReadBStep(opts: seq<Term>, i: nat, st: BeliefParams)
    requires i < |opts|
    ensures FitsB(opts, i, i, st) ==> ReadB(opts, i, st) == ReadB(opts, i + 1, FillB(st, opts[i]))
    ensures !FitsB(opts, i, i, st) ==> ReadB(opts, i, st) == Unrecognized(opts[i])
  {
  }

  /** A rejected list is reported at its first option that finds the slot
      it names already filled, or names none. */
  lemma {:induction false} ReadBMisfit(opts: seq<Term>, i: nat, st: BeliefParams)
    requires i <= |opts|
    ensures var r := ReadB(opts, i, st);
            r.Err? ==> exists j :: i <= j < |opts| && (forall k :: i <= k < j ==> FitsB(opts, i, k, st))
                                   && !FitsB(opts, i, j, st) && r.error == UnrecognizedOption(opts[j])
    decreases |opts| - i
  {
    if i < |opts| && ReadB(opts, i, st).Err? {
      ReadBStep(opts, i, st);
      if FitsB(opts, i, i, st) {
        var st', i' := FillB(st, opts[i]), i + 1;
        ReadBMisfit(opts, i', st');
        var j :| i' <= j < |opts| && (forall k :: i' <= k < j ==> FitsB(opts, i', k, st'))
                 && !FitsB(opts, i', j, st') && ReadB(opts, i', st').error == UnrecognizedOption(opts[j]);
        forall k | i < k < j
          ensures FitsB(opts, i, k, st)
        {
          FitsBShift(opts, i, k, st);
        }
        FitsBShift(opts, i, j, st);
        assert (forall k :: i <= k < j ==> FitsB(opts, i, k, st)) && !FitsB(opts, i, j, st);
      } else {
        assert !FitsB(opts, i, i, st) && ReadB(opts, i, st).error == UnrecognizedOption(opts[i]);
      }
    }
  }

  /** Acceptance and the values read, by induction over the options. */
  lemma {:induction false} ReadBRead(opts: seq<Term>, i: nat, st: BeliefParams)
    requires i <= |opts|
    ensures var r := ReadB(opts, i, st);
            r.Ok? <==>
              && (forall j :: i <= j < |opts| ==> AgentOption(opts[j]) || ConfidenceOption(opts[j]))
              && CountIn(opts, i, |opts|, AgentOption) + Count(st.agent.Some?) <= 1
              && CountIn(opts, i, |opts|, ConfidenceOption) + Count(st.confidence.Some?) <= 1
    ensures var r := ReadB(opts, i, st);
            r.Ok? ==>
              && (forall j :: i <= j < |opts| && AgentOption(opts[j]) ==> r.value.agent == Some(AgentName(opts[j])))
              && ((forall j :: i <= j < |opts| ==> !AgentOption(opts[j])) ==> r.value.agent == st.agent)
              && (forall j :: i <= j < |opts| && ConfidenceOption(opts[j]) ==>
                    r.value.confidence == Some(ConfidenceValue(opts[j])))
              && ((forall j :: i <= j < |opts| ==> !ConfidenceOption(opts[j])) ==> r.value.confidence == st.confidence)
    decreases |opts| - i
  {
    if i < |opts| {
      var o := opts[i];
      var a, c := AgentOption(o), ConfidenceOption(o);
      if a && st.agent.None? {
        ReadBRead(opts, i + 1, st.(agent := Some(AgentName(o))));
      } else if c && st.confidence.None? {
        ReadBRead(opts, i + 1, st.(confidence := Some(ConfidenceValue(o))));
      } else {
        assert ReadB(opts, i, st) == Unrecognized(o);
      }
    }
  }

  /**
    The option loop of `createB` from option `i` on: it accepts when the
    options all name the agent or the confidence and name each at most
    once (counting the slots the state already holds); the values are
    those the options give; a rejection reports the first option that
    finds its slot filled or names none.
   */
  lemma {:induction false} ReadBSpec(opts: seq<Term>, i: nat, st: BeliefParams)
    requires i <= |opts|
    ensures var r := ReadB(opts, i, st);
            r.Ok? <==>
              && (forall j :: i <= j < |opts| ==> AgentOption(opts[j]) || ConfidenceOption(opts[j]))
              && CountIn(opts, i, |opts|, AgentOption) + Count(st.agent.Some?) <= 1
              && CountIn(opts, i, |opts|, ConfidenceOption) + Count(st.confidence.Some?) <= 1
    ensures var r := ReadB(opts, i, st);
            r.Ok? ==>
              && (forall j :: i <= j < |opts| && AgentOption(opts[j]) ==> r.value.agent == Some(AgentName(opts[j])))
              && ((forall j :: i <= j < |opts| ==> !AgentOption(opts[j])) ==> r.value.agent == st.agent)
              && (forall j :: i <= j < |opts| && ConfidenceOption(opts[j]) ==>
                    r.value.confidence == Some(ConfidenceValue(opts[j])))
              && ((forall j :: i <= j < |opts| ==> !ConfidenceOption(opts[j])) ==> r.value.confidence == st.confidence)
    ensures var r := ReadB(opts, i, st);
            r.Err? ==> exists j :: i <= j < |opts| && (forall k :: i <= k < j ==> FitsB(opts, i, k, st))
                                   && !FitsB(opts, i, j, st) && r.error == UnrecognizedOption(opts[j])
  {
    ReadBRead(opts, i, st);
    ReadBMisfit(opts, i, st);
  }

  /**
    `createB` accepts at most one agent option and at most one confidence
    option, in either order, and nothing else; the agent and confidence
    are the values of those options, an agent of "self" giving no agent.
   */
  lemma {:induction false} CreateBSpec(opts: seq<Term>)
    ensures CreateB(Some(opts)).Ok? <==>
              && (forall j :: 0 <= j < |opts| ==> AgentOption(opts[j]) || ConfidenceOption(opts[j]))
              && CountIn(opts, 0, |opts|, AgentOption) <= 1
              && CountIn(opts, 0, |opts|, ConfidenceOption) <= 1
    ensures CreateB(Some(opts)).Ok? ==>
              && (forall j :: 0 <= j < |opts| && AgentOption(opts[j]) ==>
                    CreateB(Some(opts)).value.agent == NormalizeAgent(Some(AgentName(opts[j]))))
              && ((forall j :: 0 <= j < |opts| ==> !AgentOption(opts[j])) ==> CreateB(Some(opts)).value.agent == None)
              && (forall j :: 0 <= j < |opts| && ConfidenceOption(opts[j]) ==>
                    CreateB(Some(opts)).value.confidence == Some(ConfidenceValue(opts[j])))
              && ((forall j :: 0 <= j < |opts| ==> !ConfidenceOption(opts[j])) ==> CreateB(Some(opts)).value.confidence == None)
    ensures CreateB(Some(opts)).Err? ==>
              exists j :: 0 <= j < |opts| && (forall k :: 0 <= k < j ==> FitsB(opts, 0, k, BeliefParams(None, None)))
                          && !FitsB(opts, 0, j, BeliefParams(None, None)) && CreateB(Some(opts)).error == UnrecognizedOption(opts[j])
  {
    ReadBSpec(opts, 0, BeliefParams(None, None));
  }

  /** `B[fred, confidence=0.8]` and `B[c=0.8, fred]` give the same
      operator. */
  lemma {:induction false} CreateBExamples()
    ensures CreateB(Some([Str("fred"), Pred("=", [Str("confidence"), Dbl(0.8)])])) == Ok(Belief(Some("fred"), Some(0.8)))
    ensures CreateB(Some([Pred("=", [Str("c"), Dbl(0.8)]), Str("fred")])) == Ok(Belief(Some("fred"), Some(0.8)))
    ensures CreateB(Some([Str("self"), Dbl(0.5)])) == Ok(Belief(None, Some(0.5)))
  {
  }

  /** A second confidence and an unknown key are both unrecognised:
      `B[0.8, 0.8]` and `B[foo=fred]`. */
  lemma {:induction false} CreateBErrors()
    ensures CreateB(Some([Dbl(0.8), Dbl(0.8)])) == Err(UnrecognizedOption(Dbl(0.8)))
    ensures CreateB(Some([Pred("=", [Str("foo"), Str("fred")])])) ==
            Err(UnrecognizedOption(Pred("=", [Str("foo"), Str("fred")])))
  {
  }

  // ---------------------------------------------------------------------
  // P and H
  // ---------------------------------------------------------------------

  /** `begin=`/`since=` with a double. */
  predicate BeginKeyed(o: Term) {
    KeyedOption(o, "begin", "since") && o.args[1].Dbl?
  }

  /** `end=`/`until=` with a double. */
  predicate EndKeyed(o: Term) {
    KeyedOption(o, "end", "until") && o.args[1].Dbl?
  }

  /** An option `readTimeInterval` can use, given free slots. */
  predicate TimeOption(o: Term) {
    o.Dbl? || BeginKeyed(o) || EndKeyed(o)
  }

  function TimeValue(o: Term): real
    requires TimeOption(o)
  {
    if o.Dbl? then o.dbl else o.args[1].dbl
  }

  /** An option that takes the begin slot when that slot is free. */
  predicate TakesBegin(o: Term) {
    o.Dbl? || BeginKeyed(o)
  }

  const NoTime := TimeInterval(None, None)

  function Filled(ti: TimeInterval): nat {
    Count(ti.begin.Some?) + Count(ti.end.Some?)
  }

  /** The option loop of `readTimeInterval` from option `i` on: a bare
      double fills the begin, else the end; `begin=`/`since=` and
      `end=`/`until=` fill their slot if it is free. */
  function ReadTimes(opts: seq<Term>, i: nat, ti: TimeInterval): Result<TimeInterval, QueryError>
    requires i <= |opts|
    decreases |opts| - i
  {
    if i == |opts| then Ok(ti)
    else
      var o := opts[i];
      if o.Dbl? then
        if ti.begin.None? then ReadTimes(opts, i + 1, ti.(begin := Some(o.dbl)))
        else if ti.end.None? then ReadTimes(opts, i + 1, ti.(end := Some(o.dbl)))
        else Unrecognized(o)
      else if o.Pred? && |o.args| == 2 && ti.begin.None? && o.args[1].Dbl?
              && (o.args[0] == Str("begin") || o.args[0] == Str("since")) then
        ReadTimes(opts, i + 1, ti.(begin := Some(o.args[1].dbl)))
      else if o.Pred? && |o.args| == 2 && ti.end.None? && o.args[1].Dbl?
              && (o.args[0] == Str("end") || o.args[0] == Str("until")) then
        ReadTimes(opts, i + 1, ti.(end := Some(o.args[1].dbl)))
      else Unrecognized(o)
  }

  /** `readTimeInterval`: an interval when some end was given. */
  function ReadTimeInterval(opts: seq<Term>): Result<Option<TimeInterval>, QueryError> {
    match ReadTimes(opts, 0, NoTime)
    case Ok(ti) => Ok(if ti.begin.Some? || ti.end.Some? then Some(ti) else None)
    case Err(e) => Err(e)
  }

  function CreateP(options: Option<seq<Term>>): (r: Result<ModalOperator, QueryError>)
    ensures r.Ok? ==> r.value.PastOnce?
    ensures options.None? ==> r == Ok(PastOnce(None))
  {
    match options
    case None => Ok(PastOnce(None))
    case Some(opts) =>
      match ReadTimeInterval(opts)
      case Ok(ti) => Ok(PastOnce(ti))
      case Err(e) => Err(e)
  }

  function CreateH(options: Option<seq<Term>>): (r: Result<ModalOperator, QueryError>)
    ensures r.Ok? ==> r.value.PastAlways?
    ensures options.None? ==> r == Ok(PastAlways(None))
  {
    match options
    case None => Ok(PastAlways(None))
    case Some(opts) =>
      match ReadTimeInterval(opts)
      case Ok(ti) => Ok(PastAlways(ti))
      case Err(e) => Err(e)
  }

  /** The begin slot is still free before option `k`: the state leaves
      it free and no option at `i..k` took it. */
  predicate BeginFree(opts: seq<Term>, i: nat, k: nat, ti: TimeInterval)
    requires i <= k <= |opts|
  {
    ti.begin.None? && CountIn(opts, i, k, TakesBegin) == 0
  }

  /** Option `k` finds a free slot it may fill, when every option at
      `i..k` has filled one: a bare double needs either slot, `begin=`
      the begin slot and `end=` the end slot. */
  predicate FitsTime(opts: seq<Term>, i: nat, k: nat, ti: TimeInterval)
    requires i <= k < |opts|
  {
    var o, filled, free := opts[k], Filled(ti) + (k - i), BeginFree(opts, i, k, ti);
    || (o.Dbl? && filled < 2)
    || (BeginKeyed(o) && free)
    || (EndKeyed(o) && filled == Count(!free))
  }

  /** Option `k` fills the begin slot: a begin key, or a bare double while
      the begin slot is free. */
  predicate FillsBegin(opts: seq<Term>, i: nat, k: nat, ti: TimeInterval)
    requires i <= k < |opts|
  {
    BeginKeyed(opts[k]) || (opts[k].Dbl? && BeginFree(opts, i, k, ti))
  }

  /** Option `k` fills the end slot: an end key, or a bare double once the
      begin slot is taken. */
  predicate FillsEnd(opts: seq<Term>, i: nat, k: nat, ti: TimeInterval)
    requires i <= k < |opts|
  {
    EndKeyed(opts[k]) || (opts[k].Dbl? && !BeginFree(opts, i, k, ti))
  }

  /** The slots after option `o` has filled one. */
  function FillTime(ti: TimeInterval, o: Term): TimeInterval {
    if o.Dbl? then (if ti.begin.None? then ti.(begin := Some(o.dbl)) else ti.(end := Some(o.dbl)))
    else if BeginKeyed(o) then ti.(begin := Some(TimeValue(o)))
    else if EndKeyed(o) then ti.(end := Some(TimeValue(o)))
    else ti
  }

  /** The option loop of `readTimeInterval` reads a fitting option into
      one more slot and rejects one that does not fit. */
  lemma {:induction false} ReadTimesStep(opts: seq<Term>, i: nat, ti: TimeInterval)
    requires i < |opts|
    ensures FitsTime(opts, i, i, ti) ==>
              ReadTimes(opts, i, ti) == ReadTimes(opts, i + 1, FillTime(ti, opts[i]))
              && Filled(FillTime(ti, opts[i])) == Filled(ti) + 1
    ensures !FitsTime(opts, i, i, ti) ==> ReadTimes(opts, i, ti) == Unrecognized(opts[i])
  {
    assert BeginFree(opts, i, i, ti) == ti.begin.None?;
  }

  /** After a fitting first option the free slots, and so the fit and the
      slot of every later option, are as seen from the next position. */
  lemma {:induction false} FitsTimeShift(opts: seq<Term>, i: nat, k: nat, ti: TimeInterval)
    requires i < k <= |opts| && i < |opts| && FitsTime(opts, i, i, ti)
    ensures BeginFree(opts, i, k, ti) <==> BeginFree(opts, i + 1, k, FillTime(ti, opts[i]))
    ensures k < |opts| ==>
              && (FitsTime(opts, i, k, ti) <==> FitsTime(opts, i + 1, k, FillTime(ti, opts[i])))
              && (FillsBegin(opts, i, k, ti) <==> FillsBegin(opts, i + 1, k, FillTime(ti, opts[i])))
              && (FillsEnd(opts, i, k, ti) <==> FillsEnd(opts, i + 1, k, FillTime(ti, opts[i])))
  {
    assert BeginFree(opts, i, i, ti) == ti.begin.None?;
    assert CountIn(opts, i, k, TakesBegin) == Count(TakesBegin(opts[i])) + CountIn(opts, i + 1, k, TakesBegin);
  }

  /** Acceptance and the first misfit, by induction over the options. */
  lemma {:induction false} ReadTimesOutcome(opts: seq<Term>, i: nat, ti: TimeInterval)
    requires i <= |opts|
    ensures var r := ReadTimes(opts, i, ti);
            r.Ok? <==> forall k :: i <= k < |opts| ==> FitsTime(opts, i, k, ti)
    ensures var r := ReadTimes(opts, i, ti);
            r.Err? ==> exists j :: i <= j < |opts| && (forall k :: i <= k < j ==> FitsTime(opts, i, k, ti))
                                   && !FitsTime(opts, i, j, ti) && r.error == UnrecognizedOption(opts[j])
    decreases |opts| - i
  {
    if i < |opts| {
      ReadTimesStep(opts, i, ti);
      if FitsTime(opts, i, i, ti) {
        var ti', i' := FillTime(ti, opts[i]), i + 1;
        ReadTimesOutcome(opts, i', ti');
        forall k | i < k < |opts|
          ensures FitsTime(opts, i, k, ti) <==> FitsTime(opts, i', k, ti')
        {
          FitsTimeShift(opts, i, k, ti);
        }
        if ReadTimes(opts, i, ti).Err? {
          var j :| i' <= j < |opts| && (forall k :: i' <= k < j ==> FitsTime(opts, i', k, ti'))
                   && !FitsTime(opts, i', j, ti') && ReadTimes(opts, i', ti').error == UnrecognizedOption(opts[j]);
          assert (forall k :: i <= k < j ==> FitsTime(opts, i, k, ti)) && !FitsTime(opts, i, j, ti);
        }
      } else {
        assert !FitsTime(opts, i, i, ti) && ReadTimes(opts, i, ti).error == UnrecognizedOption(opts[i]);
      }
    }
  }

  /** The values read, by induction over the options. */
  lemma {:induction false} ReadTimesValues(opts: seq<Term>, i: nat, ti: TimeInterval)
    requires i <= |opts|
    ensures var r := ReadTimes(opts, i, ti);
            r.Ok? ==>
              && Filled(r.value) == Filled(ti) + (|opts| - i)
              && (forall j :: i <= j < |opts| && FillsBegin(opts, i, j, ti) ==> r.value.begin == Some(TimeValue(opts[j])))
              && (forall j :: i <= j < |opts| && FillsEnd(opts, i, j, ti) ==> r.value.end == Some(TimeValue(opts[j])))
              && ((forall j :: i <= j < |opts| ==> !FillsBegin(opts, i, j, ti)) ==> r.value.begin == ti.begin)
              && ((forall j :: i <= j < |opts| ==> !FillsEnd(opts, i, j, ti)) ==> r.value.end == ti.end)
    decreases |opts| - i
  {
    if i < |opts| {
      ReadTimesStep(opts, i, ti);
      if FitsTime(opts, i, i, ti) {
        var ti', i' := FillTime(ti, opts[i]), i + 1;
        ReadTimesValues(opts, i', ti');
        forall k | i < k < |opts|
          ensures FillsBegin(opts, i, k, ti) <==> FillsBegin(opts, i', k, ti')
          ensures FillsEnd(opts, i, k, ti) <==> FillsEnd(opts, i', k, ti')
        {
          FitsTimeShift(opts, i, k, ti);
        }
        assert BeginFree(opts, i, i, ti) == ti.begin.None?;
        assert FillsBegin(opts, i, i, ti) != FillsEnd(opts, i, i, ti);
        assert FillsBegin(opts, i, i, ti) ==> ti'.end == ti.end;
        assert FillsEnd(opts, i, i, ti) ==> ti'.begin == ti.begin;
      }
    }
  }

  /**
    The option loop of `readTimeInterval` from option `i` on. It accepts
    exactly when every option finds a free slot it may fill, in order: a
    bare double fills the begin slot while that is free and the end slot
    after, `begin=`/`since=` only a free begin slot and `end=`/`until=`
    only a free end slot. Each option's value lands in the slot it fills;
    a slot no option fills keeps its value; a rejection reports the first
    option without a slot.
   */
  lemma {:induction false} ReadTimesSpec(opts: seq<Term>, i: nat, ti: TimeInterval)
    requires i <= |opts|
    ensures var r := ReadTimes(opts, i, ti);
            r.Ok? <==> forall k :: i <= k < |opts| ==> FitsTime(opts, i, k, ti)
    ensures var r := ReadTimes(opts, i, ti);
            r.Ok? ==>
              && Filled(r.value) == Filled(ti) + (|opts| - i)
              && (forall j :: i <= j < |opts| && FillsBegin(opts, i, j, ti) ==> r.value.begin == Some(TimeValue(opts[j])))
              && (forall j :: i <= j < |opts| && FillsEnd(opts, i, j, ti) ==> r.value.end == Some(TimeValue(opts[j])))
              && ((forall j :: i <= j < |opts| ==> !FillsBegin(opts, i, j, ti)) ==> r.value.begin == ti.begin)
              && ((forall j :: i <= j < |opts| ==> !FillsEnd(opts, i, j, ti)) ==> r.value.end == ti.end)
    ensures var r := ReadTimes(opts, i, ti);
            r.Err? ==> exists j :: i <= j < |opts| && (forall k :: i <= k < j ==> FitsTime(opts, i, k, ti))
                                   && !FitsTime(opts, i, j, ti) && r.error == UnrecognizedOption(opts[j])
  {
    ReadTimesOutcome(opts, i, ti);
    ReadTimesValues(opts, i, ti);
  }

  /**
    `P[...]` accepts exactly the lists whose options each find a free slot
    in order, so at most two; no option gives the unparametrised operator,
    and otherwise each option's value is the begin or end it fills and a
    slot no option fills is open. A rejection reports the first option
    without a slot. `H[...]` reads its options the same way.
   */
  lemma {:induction false} CreatePSpec(opts: seq<Term>)
    ensures CreateP(Some(opts)).Ok? <==> forall k :: 0 <= k < |opts| ==> FitsTime(opts, 0, k, NoTime)
    ensures CreateP(Some(opts)).Ok? ==>
              |opts| <= 2 && (forall j :: 0 <= j < |opts| ==> TimeOption(opts[j]))
              && (CreateP(Some(opts)).value.interval.None? <==> |opts| == 0)
    ensures CreateP(Some(opts)).Ok? && |opts| > 0 ==>
              var ti := CreateP(Some(opts)).value.interval.value;
              && (forall j :: 0 <= j < |opts| && FillsBegin(opts, 0, j, NoTime) ==> ti.begin == Some(TimeValue(opts[j])))
              && (forall j :: 0 <= j < |opts| && FillsEnd(opts, 0, j, NoTime) ==> ti.end == Some(TimeValue(opts[j])))
              && ((forall j :: 0 <= j < |opts| ==> !FillsBegin(opts, 0, j, NoTime)) ==> ti.begin.None?)
              && ((forall j :: 0 <= j < |opts| ==> !FillsEnd(opts, 0, j, NoTime)) ==> ti.end.None?)
    ensures CreateP(Some(opts)).Err? ==>
              exists j :: 0 <= j < |opts| && (forall k :: 0 <= k < j ==> FitsTime(opts, 0, k, NoTime))
                          && !FitsTime(opts, 0, j, NoTime) && CreateP(Some(opts)).error == UnrecognizedOption(opts[j])
    ensures CreateP(Some(opts)).Ok? <==> CreateH(Some(opts)).Ok?
    ensures CreateP(Some(opts)).Ok? ==> CreateP(Some(opts)).value.interval == CreateH(Some(opts)).value.interval
  {
    ReadTimesSpec(opts, 0, NoTime);
    if CreateP(Some(opts)).Ok? {
      forall j | 0 <= j < |opts|
        ensures TimeOption(opts[j])
      {
        assert FitsTime(opts, 0, j, NoTime);
      }
    }
  }

  /** Bare doubles fill begin, then end; a third is unrecognised. */
  lemma {:induction false} PositionalTimes(a: real, b: real, c: real)
    ensures CreateP(Some([Dbl(a)])) == Ok(PastOnce(Some(TimeInterval(Some(a), None))))
    ensures CreateP(Some([Dbl(a), Dbl(b)])) == Ok(PastOnce(Some(TimeInterval(Some(a), Some(b)))))
    ensures CreateH(Some([Dbl(a), Dbl(b), Dbl(c)])) == Err(UnrecognizedOption(Dbl(c)))
  {
    var none := TimeInterval(None, None);
    var ab := TimeInterval(Some(a), Some(b));
    assert ReadTimes([Dbl(a)], 0, none) == ReadTimes([Dbl(a)], 1, TimeInterval(Some(a), None));
    assert ReadTimes([Dbl(a), Dbl(b)], 1, TimeInterval(Some(a), None)) == ReadTimes([Dbl(a), Dbl(b)], 2, ab);
    assert ReadTimes([Dbl(a), Dbl(b), Dbl(c)], 1, TimeInterval(Some(a), None))
        == ReadTimes([Dbl(a), Dbl(b), Dbl(c)], 2, ab);
  }

  /** The keys `since` and `until`; and the reading order matters: a bare
      double before `begin=` takes the begin slot, so the key is then
      rejected, while after it the double takes the end slot. */
  lemma {:induction false} KeyedTimes()
    ensures CreateH(Some([Pred("=", [Str("since"), Dbl(1.0)]), Pred("=", [Str("until"), Dbl(2.0)])]))
            == Ok(PastAlways(Some(TimeInterval(Some(1.0), Some(2.0)))))
    ensures CreateP(Some([Pred("=", [Str("begin"), Dbl(1.0)]), Dbl(3.0)]))
            == Ok(PastOnce(Some(TimeInterval(Some(1.0), Some(3.0)))))
    ensures CreateP(Some([Dbl(3.0), Pred("=", [Str("begin"), Dbl(1.0)])]))
            == Err(UnrecognizedOption(Pred("=", [Str("begin"), Dbl(1.0)])))
  {
  }
}
