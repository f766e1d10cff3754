/** How a login comes to each of its ends and to each piece of work, told by the
    replies alone, and what it still knows of them (source/combo_auth.c lines 970
    to 1001, 1546 to 1576, 1651 to 1811, 1921 to 2013 and 2074 to 2936). */
module LoginOutcomes {
  import opened Bytes
  import opened LoginFlow

  // ---- the parts of a verification state ----

  /** `i` is the first chosen method that is not verified yet. */
  predicate FirstOpen(chosen: seq<int>, partly: seq<int>, i: nat) {
    i < |chosen| && chosen[i] !in partly && forall j | 0 <= j < i :: chosen[j] in partly
  }

  /** `i` is the first combination of which the client supports every method. */
  predicate FirstUsable(combinations: seq<Option<seq<int>>>, i: nat) {
    i < |combinations| && Possible(combinations[i]) && forall j | 0 <= j < i :: !Possible(combinations[j])
  }

  predicate Usable(d: InfoData) { d.ticket != Some([]) && d.shaped && |d.combinations| <= COMBINATION_CAPACITY }

  /** Nothing is left to verify. */
  predicate Settled(d: InfoData) { Usable(d) && (d.verified || d.combinations == []) }

  predicate Unsettled(d: InfoData) { Usable(d) && !d.verified && d.combinations != [] }

  predicate ListsFit(d: InfoData) { !BadList(d.chosen) && !BadList(d.partly) }

  /** A combination was chosen before; its next method is number `i`. */
  predicate Resumes(d: InfoData, i: nat) {
    Unsettled(d) && ListsFit(d) && FirstOpen(ListOf(d.chosen), ListOf(d.partly), i)
  }

  predicate Chooses(d: InfoData) {
    Unsettled(d) && ListsFit(d) && ListOf(d.chosen) == []
    && forall k | 0 <= k < |d.combinations| :: !BadCombination(d.combinations[k])
  }

  /** Combination number `i` is the one to take. */
  predicate Picks(d: InfoData, i: nat) { Chooses(d) && FirstUsable(d.combinations, i) }

  /** What remains asks for a method the client does not have. */
  predicate Unsupported(d: InfoData) {
    || (exists i | 0 <= i < |ListOf(d.chosen)| :: Resumes(d, i) && !Supported(ListOf(d.chosen)[i]))
    || (Chooses(d) && forall k | 0 <= k < |d.combinations| :: !Possible(d.combinations[k]))
  }

  /** The factor of method `m` is asked for next. */
  predicate Asks(d: InfoData, m: int) {
    || (exists i | 0 <= i < |ListOf(d.chosen)| :: Resumes(d, i) && ListOf(d.chosen)[i] == m && Supported(m))
    || (Picks(d, 0) && d.combinations[0].value[0] == m)
  }

  predicate AsksCode(d: InfoData) { Asks(d, METHOD_EMAIL) || Asks(d, METHOD_MOBILE) }

  predicate AsksSome(d: InfoData) { AsksCode(d) || Asks(d, METHOD_PASSWORD) }

  /** The server has to be told first which combination is taken. */
  predicate Announces(d: InfoData) { exists i | 0 < i < |d.combinations| :: Picks(d, i) }

  predicate Malformed(d: InfoData) {
    || !Usable(d)
    || (Unsettled(d) && !ListsFit(d))
    || (Unsettled(d) && ListOf(d.chosen) != []
        && forall j | 0 <= j < |ListOf(d.chosen)| :: ListOf(d.chosen)[j] in ListOf(d.partly))
    || (Unsettled(d) && ListOf(d.chosen) == []
        && exists k | 0 <= k < |d.combinations| :: BadCombination(d.combinations[k]))
  }

  lemma {:induction false} NextIsFirstOpen(chosen: seq<int>, partly: seq<int>)
    ensures forall i | 0 <= i < |chosen| && FirstOpen(chosen, partly, i) ::
              NextMethod(chosen, partly) == Some(chosen[i])
    ensures NextMethod(chosen, partly).None? <==> forall j | 0 <= j < |chosen| :: chosen[j] in partly
    ensures NextMethod(chosen, partly).Some? ==>
              exists i | 0 <= i < |chosen| ::
                  FirstOpen(chosen, partly, i) && NextMethod(chosen, partly) == Some(chosen[i])
    decreases |chosen|
  {
    if chosen != [] {
      var rest := chosen[1..];
      NextIsFirstOpen(rest, partly);
      assert forall j | 0 <= j < |rest| :: rest[j] == chosen[j + 1];
      if chosen[0] in partly {
        forall i | 0 <= i < |chosen| && FirstOpen(chosen, partly, i)
          ensures NextMethod(chosen, partly) == Some(chosen[i])
        {
          assert FirstOpen(rest, partly, i - 1);
        }
        if NextMethod(rest, partly).Some? {
          var i :| 0 <= i < |rest| && FirstOpen(rest, partly, i) && NextMethod(rest, partly) == Some(rest[i]);
          assert FirstOpen(chosen, partly, i + 1);
        }
        if forall j | 0 <= j < |rest| :: rest[j] in partly {
          assert forall j | 0 < j < |chosen| :: chosen[j] == rest[j - 1];
        }
      } else {
        assert FirstOpen(chosen, partly, 0);
      }
    }
  }

  lemma FirstPossibleIs(combinations: seq<Option<seq<int>>>)
    ensures forall i | 0 <= i < |combinations| && FirstUsable(combinations, i) :: FirstPossible(combinations) == i
    ensures FirstPossible(combinations) < |combinations| ==> FirstUsable(combinations, FirstPossible(combinations))
    ensures FirstPossible(combinations) == |combinations| <==>
              forall k | 0 <= k < |combinations| :: !Possible(combinations[k])
  {
    hide Possible;
  }

  // ---- what each reply means ----

  predicate Cancels(r: Reply) {
    match r
    case InputReply(account, password) =>
      account == KeyCancel || (account.Typed? && account.cipher != [] && password == KeyCancel)
    case GeetestReply(g) => g == PromptCancel
    case FactorReply(k) => k == KeyCancel
    case _ => false
  }

  predicate RejectsCombo(r: Reply) { r == ComboReply(ComboRefused) }

  predicate RejectsPassport(r: Reply) {
    match r
    case PassportReply(p) => p.Refused? && !Challenge(p.retcode) && p.retcode != -3208
    case InfoReply(a) => a.Rejected?
    case MethodReply(a) => a.Rejected?
    case CaptchaReply(a) => a.Rejected?
    case VerifyReply(a) => a.Rejected? && (a.retcode == -3003 || a.retcode == -100)
    case _ => false
  }

  /** The server wants a captcha this client can show. */
  predicate WantsCaptcha(p: PassportAnswer) {
    p.Refused? && p.retcode == -3101 && p.aigis.Aigis? && p.aigis.useV4
    && p.aigis.gt != [] && p.aigis.session != [] && p.aigis.risk != []
  }

  /** The server wants the identity verified, and says under which ticket. */
  predicate WantsIdentity(p: PassportAnswer) {
    p.Refused? && Challenge(p.retcode) && p.retcode != -3101
    && p.verify.VerifyHeader? && p.verify.raw != [] && p.verify.ticket != [] && p.verify.kind == TYPE_IDENTITY
  }

  predicate NeedsChallenge(r: Reply) {
    match r
    case PassportReply(p) => p.Refused? && Challenge(p.retcode) && !WantsCaptcha(p) && !WantsIdentity(p)
    case GeetestReply(g) => g == BridgeFail || g == PromptFail
    case _ => false
  }

  predicate NeedsOtherVerifier(r: Reply) { r.InfoReply? && r.info.Accepted? && Unsupported(r.info.data) }

  predicate Useless(k: Keyboard) { k == KeyFail || k == EncryptFail || k == Typed([]) }

  /** The attempt breaks off without an answer worth naming. */
  predicate Breaks(v: View, r: Reply) {
    match r
    case PreflightReply(ok) => !ok
    case InputReply(account, password) => Useless(account) || (account.Typed? && Useless(password))
    case PassportReply(p) => p == PassportDown || (p.LoggedIn? && (p.token == [] || p.uid == []))
    case ComboReply(c) => c == ComboDown || (c.ComboOk? && !c.queued)
    case GeetestReply(_) => false
    case InfoReply(a) =>
      || a == Down || (a.Accepted? && Malformed(a.data))
      || (a.Accepted? && v.verifier.steps >= MAX_STEPS && AsksSome(a.data))
    case MethodReply(a) => a == Down
    case CaptchaReply(a) => a == Down
    case FactorReply(k) =>
      k == KeyFail || k == EncryptFail || (k == Typed([]) && v.chosenMethod == METHOD_PASSWORD)
    case VerifyReply(a) => a == Down
  }

  /** The reply that leads on to `work`. */
  predicate LeadsTo(v: View, r: Reply, work: Work) {
    match work
    case Preflight => false
    case Input => r == PreflightReply(true) || (r.PassportReply? && r.passport.Refused? && r.passport.retcode == -3208)
    case Passport =>
      || (r.InputReply? && r.account.Typed? && r.password.Typed? && r.account.cipher != [] && r.password.cipher != [])
      || (r.GeetestReply? && r.geetest.Solved? && r.geetest.result != [])
      || (r.InfoReply? && r.info.Accepted? && Settled(r.info.data))
    case Combo => r.PassportReply? && r.passport.LoggedIn? && r.passport.token != [] && r.passport.uid != []
    case Geetest =>
      || (r.PassportReply? && WantsCaptcha(r.passport))
      || r == GeetestReply(NoResult) || r == GeetestReply(Solved([]))
    case Info =>
      || (r.PassportReply? && WantsIdentity(r.passport))
      || (r.MethodReply? && r.chosen.Accepted?) || (r.VerifyReply? && r.verified.Accepted?)
    case Method => r.InfoReply? && r.info.Accepted? && Announces(r.info.data)
    case Captcha =>
      && r.InfoReply? && r.info.Accepted? && !r.info.data.captchaSent && v.verifier.steps < MAX_STEPS
      && AsksCode(r.info.data)
    case FactorInput =>
      || (r.InfoReply? && r.info.Accepted? && v.verifier.steps < MAX_STEPS
          && (Asks(r.info.data, METHOD_PASSWORD)
              || (r.info.data.captchaSent && AsksCode(r.info.data))))
      || (r.CaptchaReply? && r.captcha.Accepted?)
      || (r.FactorReply? && r.factor.Typed? && v.chosenMethod != METHOD_PASSWORD && !SixDigits(r.factor.cipher))
      || (r.VerifyReply? && r.verified.Rejected? && r.verified.retcode != -3003 && r.verified.retcode != -100)
    case Verify =>
      && r.FactorReply? && r.factor.Typed?
      && (if v.chosenMethod == METHOD_PASSWORD then r.factor.cipher != [] else SixDigits(r.factor.cipher))
  }

  /** The end a reply brings, if its completion callback was queued; otherwise Failed. */
  predicate EndFits(v: View, r: Reply, queued: bool, p: Phase) {
    && (p == Succeeded <==> r.ComboReply? && r.combo.ComboOk? && r.combo.queued)
    && (p == Canceled <==> queued && Cancels(r))
    && (p == ComboRejected <==> queued && RejectsCombo(r))
    && (p == PassportRejected <==> queued && RejectsPassport(r))
    && (p == ChallengeRequired <==> queued && NeedsChallenge(r))
    && (p == VerifierUnsupported <==> queued && NeedsOtherVerifier(r))
    && (p == Failed <==> Breaks(v, r) || (!queued && Ends(r)))
  }

  predicate Ends(r: Reply) {
    Cancels(r) || RejectsCombo(r) || RejectsPassport(r) || NeedsChallenge(r) || NeedsOtherVerifier(r)
  }

  /** The work a reply leads to. */
  predicate WorkFits(v: View, r: Reply, p: Phase) {
    && (p.Queued? ==> LeadsTo(v, r, p.work))
    && (forall work :: LeadsTo(v, r, work) ==> p == Queued(work))
    && !p.Running? && !p.Idle?
  }

  predicate PhaseFits(v: View, r: Reply, queued: bool, p: Phase) { EndFits(v, r, queued, p) && WorkFits(v, r, p) }

  /** The method asked for is one, and one the client has. */
  lemma AsksOne(d: InfoData, m: int, n: int)
    requires Asks(d, m)
    ensures Supported(m) && Unsettled(d)
    ensures Asks(d, n) ==> n == m
    ensures !Announces(d) && !Unsupported(d) && !Malformed(d)
  {
    hide NextMethod, FirstPossible, BadCombination;
    NextIsFirstOpen(ListOf(d.chosen), ListOf(d.partly));
    FirstPossibleIs(d.combinations);
    if Picks(d, 0) {
      assert !BadCombination(d.combinations[0]);
      FirstMethod(d.combinations[0]);
    }
  }

  lemma FirstMethod(c: Option<seq<int>>)
    requires !BadCombination(c)
    ensures c.Some? && c.value != [] && c.value[0] in c.value
  {
  }

  /** The factor of `m` is asked for, unless that happened too often. */
  predicate Queues(v: View, d: InfoData, m: int, p: Phase) {
    p == if v.verifier.steps >= MAX_STEPS then Failed
         else Queued(if OneTimeCode(m) && !d.captchaSent then Captcha else FactorInput)
  }

  lemma ProcessIs(v: View, d: InfoData, queued: bool)
    ensures var p := ProcessInfo(v, d, queued);
            && (p.1 == Invalid <==> Malformed(d))
            && (p.1 == Unavailable <==> Unsupported(d))
            && (Settled(d) ==> p.1 == Done && p.0.phase == Queued(Passport))
            && (Announces(d) ==> p.1 == Done && p.0.phase == Queued(Method))
            && (forall m :: Asks(d, m) ==> p.1 == Done && Queues(v, d, m, p.0.phase))
            && (p.1 == Done ==> Settled(d) || Announces(d) || AsksSome(d))
  {
    hide NextMethod, FirstPossible, Possible, BadCombination;
    NextIsFirstOpen(ListOf(d.chosen), ListOf(d.partly));
    if Unsettled(d) && ListsFit(d) && ListOf(d.chosen) == [] {
      ChoiceIs(if d.ticket.Some? then v.(verifier := v.verifier.(ticket := d.ticket.value)) else v, d, queued);
    }
  }

  lemma ChoiceIs(v: View, d: InfoData, queued: bool)
    requires Unsettled(d) && ListsFit(d) && ListOf(d.chosen) == []
    ensures var p := ProcessCombinations(v, d, queued);
            && (p.1 == Invalid <==> Malformed(d))
            && (p.1 == Unavailable <==> Unsupported(d))
            && (Announces(d) ==> p.1 == Done && p.0.phase == Queued(Method))
            && (forall m :: Asks(d, m) ==> p.1 == Done && Queues(v, d, m, p.0.phase))
            && (p.1 == Done ==> Announces(d) || AsksSome(d))
  {
    hide FirstPossible, Possible, BadCombination;
    assert forall k | 0 <= k < |d.combinations| :: d.combinations[k] in d.combinations;
    FirstPossibleIs(d.combinations);
    var i := FirstPossible(d.combinations);
    if Chooses(d) && i < |d.combinations| {
      assert Picks(d, i);
      FirstMethod(d.combinations[i]);
      PossibleHas(d.combinations[i]);
    }
  }

  lemma PossibleHas(c: Option<seq<int>>)
    requires Possible(c)
    ensures forall m | m in c.value :: Supported(m)
  {
  }

  lemma InfoEnds(v: View, r: Reply, queued: bool)
    requires r.InfoReply?
    ensures EndFits(v, r, queued, Replied(v, r, queued).phase)
  {
    hide Challenge, ProcessInfo, Asks, Unsupported, Malformed, Announces, AsksSome, Finish;
    if r.info.Accepted? {
      ProcessIs(v, r.info.data, queued);
      OneOutcome(r.info.data);
    }
  }

  lemma InfoWorks(v: View, r: Reply, queued: bool)
    requires r.InfoReply?
    ensures WorkFits(v, r, Replied(v, r, queued).phase)
  {
    hide Challenge, ProcessInfo, Asks, Unsupported, Malformed, Announces, Finish;
    if r.info.Accepted? {
      ProcessIs(v, r.info.data, queued);
      OneOutcome(r.info.data);
    }
  }

  /** Only one method is asked for, and nothing else then holds. */
  lemma OneOutcome(d: InfoData)
    ensures forall m, n | Asks(d, m) && Asks(d, n) :: m == n
    ensures forall m | Asks(d, m) :: Supported(m) && Unsettled(d) && !Announces(d) && !Unsupported(d) && !Malformed(d)
    ensures AsksSome(d) <==> exists m :: Asks(d, m)
  {
    hide Asks, Unsupported, Malformed, Announces;
    forall m, n | Asks(d, m) && Asks(d, n) ensures m == n { AsksOne(d, m, n); }
    forall m | Asks(d, m)
      ensures Supported(m) && Unsettled(d) && !Announces(d) && !Unsupported(d) && !Malformed(d)
    {
      AsksOne(d, m, m);
    }
  }

  lemma PreflightFits(v: View, ok: bool, queued: bool)
    ensures PhaseFits(v, PreflightReply(ok), queued, RunPreflight(v, ok, queued).phase)
  {
    hide AsksCode, AsksSome, Announces, Malformed, Settled, Unsupported, SixDigits, Challenge, Finish, Go;
  }

  lemma InputFits(v: View, account: Keyboard, password: Keyboard, queued: bool)
    ensures PhaseFits(v, InputReply(account, password), queued, RunInput(v, account, password, queued).phase)
  {
    hide AsksCode, AsksSome, Announces, Malformed, Settled, Unsupported, SixDigits, Challenge, Finish, Go;
  }

  lemma Challenges()
    ensures Challenge(-3101) && !Challenge(-3208)
  {
  }

  lemma PassportFits(v: View, p: PassportAnswer, queued: bool)
    requires !HeaderLost(v) && !ResultLost(v)
    ensures PhaseFits(v, PassportReply(p), queued, RunPassport(v, p, queued).phase)
  {
    hide AsksCode, AsksSome, Announces, Malformed, Settled, Unsupported, SixDigits, Challenge, Finish, Go;
    Challenges();
  }

  lemma ComboFits(v: View, c: ComboAnswer, queued: bool)
    ensures PhaseFits(v, ComboReply(c), queued, RunCombo(v, c, queued).phase)
  {
    hide AsksCode, AsksSome, Announces, Malformed, Settled, Unsupported, SixDigits, Challenge, Finish, Go;
  }

  lemma GeetestFits(v: View, g: GeetestAnswer, queued: bool)
    requires !CaptchaLost(v)
    ensures PhaseFits(v, GeetestReply(g), queued, RunGeetest(v, g, queued).phase)
  {
    hide AsksCode, AsksSome, Announces, Malformed, Settled, Unsupported, SixDigits, Challenge, Finish, Go;
  }

  lemma MethodFits(v: View, a: Answer<()>, queued: bool)
    requires v.verifier.selected != []
    ensures PhaseFits(v, MethodReply(a), queued, RunMethod(v, a, queued).phase)
  {
    hide AsksCode, AsksSome, Announces, Malformed, Settled, Unsupported, SixDigits, Challenge, Finish, Go;
  }

  lemma CaptchaFits(v: View, a: Answer<()>, queued: bool)
    requires OneTimeCode(v.chosenMethod)
    ensures PhaseFits(v, CaptchaReply(a), queued, RunCaptcha(v, a, queued).phase)
  {
    hide AsksCode, AsksSome, Announces, Malformed, Settled, Unsupported, SixDigits, Challenge, Finish, Go;
  }

  lemma FactorFits(v: View, k: Keyboard, queued: bool)
    requires Supported(v.chosenMethod)
    ensures PhaseFits(v, FactorReply(k), queued, RunFactor(v, k, queued).phase)
  {
    hide AsksCode, AsksSome, Announces, Malformed, Settled, Unsupported, SixDigits, Challenge, Finish, Go;
  }

  lemma VerifyFits(v: View, a: Answer<()>, queued: bool)
    requires Supported(v.chosenMethod) && v.verifier.factor != []
    ensures PhaseFits(v, VerifyReply(a), queued, RunVerify(v, a, queued).phase)
  {
    hide AsksCode, AsksSome, Announces, Malformed, Settled, Unsupported, SixDigits, Challenge, Finish, Go;
  }

  lemma BothFit(v: View, r: Reply, queued: bool)
    requires EndFits(v, r, queued, Replied(v, r, queued).phase) && WorkFits(v, r, Replied(v, r, queued).phase)
    ensures PhaseFits(v, r, queued, Replied(v, r, queued).phase)
  {
  }

  lemma ReplyFits(v: View, r: Reply, queued: bool)
    requires Inv(v) && v.phase.Running? && Answers(v.phase.work, r)
    ensures PhaseFits(v, r, queued, Replied(v, r, queued).phase)
  {
    hide Inv, PhaseFits, RunPreflight, RunInput, RunPassport, RunCombo, RunGeetest, RunInfo, RunMethod, RunCaptcha,
        RunFactor, RunVerify;
    RunningFacts(v);
    match r
    case PreflightReply(ok) => PreflightFits(v, ok, queued);
    case InputReply(account, password) => InputFits(v, account, password, queued);
    case PassportReply(p) => PassportFits(v, p, queued);
    case ComboReply(c) => ComboFits(v, c, queued);
    case GeetestReply(g) => GeetestFits(v, g, queued);
    case InfoReply(_) => InfoEnds(v, r, queued); InfoWorks(v, r, queued); BothFit(v, r, queued);
    case MethodReply(a) => MethodFits(v, a, queued);
    case CaptchaReply(a) => CaptchaFits(v, a, queued);
    case FactorReply(k) => FactorFits(v, k, queued);
    case VerifyReply(a) => VerifyFits(v, a, queued);
  }

  // ---- over events ----

  /** A saved session is restored: the first login accepted since the start or a
      shutdown, with a session to read and its callback taken. */
  predicate Restores(v: View, e: Event) {
    && e.RequestLogin? && v.initialized && e.callbackIndex >= 0 && Terminal(v.phase)
    && !v.replayPending && !v.sessionChecked && e.loaded && e.callbackQueued
  }

  predicate AcceptsLogin(v: View, e: Event) {
    e.RequestLogin? && v.initialized && e.callbackIndex >= 0 && Terminal(v.phase)
  }

  /** What makes `p` the end of a login. */
  predicate BringsAbout(v: View, e: Event, p: Phase) {
    match p
    case Succeeded =>
      || (e.Finished? && e.reply.ComboReply? && e.reply.combo.ComboOk? && e.reply.combo.queued) || Restores(v, e)
    case Canceled => e.Finished? && e.callbackQueued && Cancels(e.reply)
    case ComboRejected => e.Finished? && e.callbackQueued && RejectsCombo(e.reply)
    case PassportRejected => e.Finished? && e.callbackQueued && RejectsPassport(e.reply)
    case ChallengeRequired => e.Finished? && e.callbackQueued && NeedsChallenge(e.reply)
    case VerifierUnsupported => e.Finished? && e.callbackQueued && NeedsOtherVerifier(e.reply)
    case Failed =>
      && e.Finished?
      && (Breaks(v, e.reply) || (!e.callbackQueued && Ends(e.reply)))
    case Queued(work) =>
      || (e.Finished? && LeadsTo(v, e.reply, work))
      || (AcceptsLogin(v, e) && !Restores(v, e) && work == if v.tlsVerified then Input else Preflight)
    case Running(work) => e.Begin? && v.phase == Queued(work)
    case Idle => e.InvalidateSession? && v.phase == Succeeded
  }

  /** Every phase is entered exactly by what brings it about: each end, each piece
      of work, and the idle state. */
  lemma EntersExactly(v: View, e: Event, p: Phase)
    requires Inv(v) && Allowed(v, e) && v.phase != p
    ensures After(v, e).phase == p <==> BringsAbout(v, e, p)
  {
    hide Inv, Replied, Cancels, RejectsCombo, RejectsPassport, NeedsChallenge, NeedsOtherVerifier, Breaks, LeadsTo,
        Ends;
    if e.Finished? {
      ReplyFits(v, e.reply, e.callbackQueued);
    }
  }

  /** And a reply never leaves the phase as it was. */
  lemma RepliesMove(v: View, e: Event, p: Phase)
    requires Inv(v) && Allowed(v, e) && e.Finished?
    ensures After(v, e).phase == p <==> BringsAbout(v, e, p)
  {
    hide Inv, Replied, Cancels, RejectsCombo, RejectsPassport, NeedsChallenge, NeedsOtherVerifier, Breaks, LeadsTo,
        Ends;
    ReplyFits(v, e.reply, e.callbackQueued);
  }

  // ---- what the machine still knows ----

  /** What the replies of a login told last. */
  datatype Told = Told(
    login: Login, header: bytes, ticket: bytes, gt: bytes, session: bytes, risk: bytes, result: bytes, factor: bytes)

  const NOTHING_TOLD := Told(NO_LOGIN, [], [], [], [], [], [], [])

  function Heard(t: Told, e: Event): Told {
    if !e.Finished? then t
    else
      match e.reply
      case InputReply(Typed(account), Typed(password)) => t.(login := Login(account, password, [], []))
      case PassportReply(LoggedIn(token, uid)) => t.(login := Login([], [], token, uid))
      case PassportReply(Refused(retcode, aigis, verify)) =>
        if retcode == -3101 then
          if aigis.Aigis? then t.(gt := aigis.gt, session := aigis.session, risk := aigis.risk) else t
        else if verify.VerifyHeader? then t.(header := verify.raw, ticket := verify.ticket) else t
      case GeetestReply(Solved(result)) => t.(result := result)
      case InfoReply(Accepted(d)) => if d.ticket.Some? then t.(ticket := d.ticket.value) else t
      case FactorReply(Typed(text)) => t.(factor := text)
      case _ => t
  }

  function Hears(t: Told, events: seq<Event>): Told
    decreases |events|
  {
    if events == [] then t else Hears(Heard(t, events[0]), events[1..])
  }

  predicate Checking(work: Work) { work.Info? || work.Method? || work.Captcha? || work.FactorInput? || work.Verify? }

  /** What `work` needs is what was told last. */
  predicate Known(work: Work, l: Login, r: Verifier, t: Told) {
    match work
    case Preflight => true
    case Input => true
    case Passport =>
      && l == t.login
      && (r.verifyRetry ==> r.header == t.header && r.ticket == t.ticket) && (r.aigisRetry ==> r.result == t.result)
    case Combo => l == t.login
    case Geetest => l == t.login && r.gt == t.gt && r.session == t.session && r.risk == t.risk
    case Verify => l == t.login && r.header == t.header && r.ticket == t.ticket && r.factor == t.factor
    case _ => l == t.login && r.header == t.header && r.ticket == t.ticket
  }

  predicate Remembers(v: View, t: Told) {
    v.phase.Queued? || v.phase.Running? ==> Known(v.phase.work, v.login, v.verifier, t)
  }

  lemma FinishRemembers(v: View, terminal: Phase, queued: bool, t: Told)
    requires Terminal(terminal)
    ensures Remembers(Finish(v, terminal, queued), t)
  {
    hide Finish;
  }

  lemma GoRemembers(v: View, work: Work, t: Told)
    requires Known(work, v.login, v.verifier, t)
    ensures Remembers(Go(v, work), t)
  {
  }

  lemma EventRemembered(v: View, e: Event, t: Told)
    requires Inv(v) && Allowed(v, e) && (e.Shutdown? ==> Restartable(v.phase)) && Remembers(v, t)
    ensures Remembers(After(v, e), Heard(t, e))
  {
    hide Replied, Heard, Inv;
    match e
    case Finished(r, queued) => RunningFacts(v); ReplyRemembered(v, r, queued, t);
    case _ => OtherRemembered(v, e, t);
  }

  lemma OtherRemembered(v: View, e: Event, t: Told)
    requires Allowed(v, e) && !e.Finished? && (e.Shutdown? ==> Restartable(v.phase)) && Remembers(v, t)
    ensures Remembers(After(v, e), Heard(t, e))
  {
  }

  lemma ReplyRemembered(v: View, r: Reply, queued: bool, t: Told)
    requires v.phase.Running? && Answers(v.phase.work, r) && Remembers(v, t)
    requires Carries(v.phase.work, v.login, v.verifier, v.chosenMethod)
    ensures Remembers(Replied(v, r, queued), Heard(t, Finished(r, queued)))
  {
    hide Finish, SixDigits, RunInput, RunPassport, RunGeetest, RunInfo, RunFactor, Remembers, Heard;
    match r
    case InputReply(account, password) => InputRemembered(v, account, password, queued, t);
    case PassportReply(p) => KnownAt(v, t); PassportRemembered(v, p, queued, t);
    case GeetestReply(g) => GeetestRemembered(v, g, queued, t);
    case InfoReply(a) => InfoRemembered(v, a, queued, t);
    case FactorReply(k) => FactorRemembered(v, k, queued, t);
    case _ => QuietRemembered(v, r, queued, t);
  }

  lemma InputRemembered(v: View, account: Keyboard, password: Keyboard, queued: bool, t: Told)
    requires v.phase == Running(Input) && v.verifier == NO_VERIFIER && v.login == NO_LOGIN
    ensures Remembers(RunInput(v, account, password, queued), Heard(t, Finished(InputReply(account, password), queued)))
  {
    hide Finish, Go, Remembers;
    var u := Heard(t, Finished(InputReply(account, password), queued));
    forall w: View { FinishRemembers(w, Failed, queued, u); }
    forall w: View { FinishRemembers(w, Canceled, queued, u); }
    if account.Typed? && password.Typed? {
      GoRemembers(v.(login := v.login.(account := account.cipher)).(
                    login := v.login.(account := account.cipher).(password := password.cipher)), Passport, u);
    }
  }

  lemma PassportRemembered(v: View, p: PassportAnswer, queued: bool, t: Told)
    requires v.phase == Running(Passport) && v.login == t.login
    ensures Remembers(RunPassport(v, p, queued), Heard(t, Finished(PassportReply(p), queued)))
  {
    hide Finish, Go, Remembers, RunRefused;
    var u := Heard(t, Finished(PassportReply(p), queued));
    FinishRemembers(v, Failed, queued, u);
    match p
    case PassportDown =>
    case LoggedIn(token, uid) =>
      GoRemembers(v.(login := Login([], [], token, uid), verifier := NO_VERIFIER), Combo, u);
    case Refused(retcode, aigis, verify) => RefusedRemembered(v, retcode, aigis, verify, queued, t);
  }

  lemma RefusedRemembered(v: View, retcode: int, aigis: AigisHeader, verify: VerifyHeader, queued: bool, t: Told)
    requires v.login == t.login
    ensures Remembers(RunRefused(v, retcode, aigis, verify, queued),
                      Heard(t, Finished(PassportReply(Refused(retcode, aigis, verify)), queued)))
  {
    hide Finish, Go, Remembers, Challenge;
    var u := Heard(t, Finished(PassportReply(Refused(retcode, aigis, verify)), queued));
    FinishRemembers(v, ChallengeRequired, queued, u);
    FinishRemembers(v, PassportRejected, queued, u);
    GoRemembers(v.(login := NO_LOGIN, verifier := NO_VERIFIER), Input, u);
    if retcode == -3101 && aigis.Aigis? {
      GoRemembers(v.(verifier := NO_VERIFIER.(gt := aigis.gt, session := aigis.session, risk := aigis.risk)),
          Geetest, u);
    }
    if retcode != -3101 && verify.VerifyHeader? {
      GoRemembers(v.(verifier := NO_VERIFIER.(header := verify.raw, ticket := verify.ticket)), Info, u);
    }
  }

  lemma GeetestRemembered(v: View, g: GeetestAnswer, queued: bool, t: Told)
    requires v.phase == Running(Geetest) && Remembers(v, t) && NoRetry(v.verifier)
    ensures Remembers(RunGeetest(v, g, queued), Heard(t, Finished(GeetestReply(g), queued)))
  {
    hide Finish, Go, Remembers;
    var u := Heard(t, Finished(GeetestReply(g), queued));
    KnownAt(v, t);
    FinishRemembers(v, ChallengeRequired, queued, u);
    FinishRemembers(v, Canceled, queued, u);
    GoRemembers(v, Geetest, u);
    if g.Solved? {
      var w := v.(verifier := v.verifier.(result := g.result));
      GoRemembers(w, Geetest, u);
      GoRemembers(w.(verifier := w.verifier.(gt := [], session := [], risk := [], aigisRetry := true)), Passport, u);
    }
  }

  lemma KnownAt(v: View, t: Told)
    requires Remembers(v, t) && (v.phase.Queued? || v.phase.Running?)
    ensures Known(v.phase.work, v.login, v.verifier, t)
  {
  }

  lemma FactorRemembered(v: View, k: Keyboard, queued: bool, t: Told)
    requires v.phase == Running(FactorInput) && Remembers(v, t)
    ensures Remembers(RunFactor(v, k, queued), Heard(t, Finished(FactorReply(k), queued)))
  {
    hide Finish, Go, Remembers, SixDigits;
    var u := Heard(t, Finished(FactorReply(k), queued));
    KnownAt(v, t);
    FinishRemembers(v, Failed, queued, u);
    FinishRemembers(v, Canceled, queued, u);
    FinishRemembers(v, VerifierUnsupported, queued, u);
    GoRemembers(v.(verifier := v.verifier.(factor := [])), FactorInput, u);
    if k.Typed? { GoRemembers(v.(verifier := v.verifier.(factor := k.cipher)), Verify, u); }
  }

  lemma QuietRemembered(v: View, r: Reply, queued: bool, t: Told)
    requires v.phase.Running? && Answers(v.phase.work, r) && Remembers(v, t)
    requires r.PreflightReply? || r.ComboReply? || r.MethodReply? || r.CaptchaReply? || r.VerifyReply?
    ensures Remembers(Replied(v, r, queued), Heard(t, Finished(r, queued)))
  {
    hide Finish, Go, Remembers, RunInput, RunPassport, RunGeetest, RunInfo, RunFactor, RunCombo;
    KnownAt(v, t);
    forall w: View { FinishRemembers(w, Failed, queued, t); }
    forall w: View { FinishRemembers(w, PassportRejected, queued, t); }
    GoRemembers(v.(tlsVerified := true), Input, t);
    if r.MethodReply? { GoRemembers(v, Info, t); }
    if r.CaptchaReply? { GoRemembers(v, FactorInput, t); }
    if r.VerifyReply? {
      GoRemembers(v.(verifier := v.verifier.(factor := [])), FactorInput, t);
      GoRemembers(v.(verifier := v.verifier.(factor := [])), Info, t);
    }
    if r.ComboReply? { ComboRemembered(v, r.combo, queued, t); }
  }

  lemma ComboRemembered(v: View, c: ComboAnswer, queued: bool, t: Told)
    ensures Remembers(RunCombo(v, c, queued), t)
  {
    hide Finish, Go;
  }

  lemma InfoRemembered(v: View, a: Answer<InfoData>, queued: bool, t: Told)
    requires v.phase == Running(Info) && Remembers(v, t) && NoRetry(v.verifier)
    ensures Remembers(RunInfo(v, a, queued), Heard(t, Finished(InfoReply(a), queued)))
  {
    hide Finish, ProcessInfo;
    if a.Accepted? { InfoKeepsData(v, a.data, queued); }
  }

  predicate SameData(v: View, w: View) {
    Terminal(w.phase) ||
    (w.phase.Queued? && (Checking(w.phase.work) || w.phase.work.Passport?) && !w.phase.work.Verify?
     && w.login == v.login && w.verifier.header == v.verifier.header && w.verifier.ticket == v.verifier.ticket
     && w.verifier.aigisRetry == v.verifier.aigisRetry)
  }

  /** The view with the ticket of a verification state taken over. */
  function WithTicket(v: View, d: InfoData): View {
    if d.ticket.Some? then v.(verifier := v.verifier.(ticket := d.ticket.value)) else v
  }

  /** Apart from the ticket, a verification state changes nothing that was told. */
  lemma InfoKeepsData(v: View, d: InfoData, queued: bool)
    ensures var p := ProcessInfo(v, d, queued);
            p.1 == Done ==> d.ticket != Some([]) && SameData(WithTicket(v, d), p.0)
  {
    hide Finish, NextMethod, ProcessCombinations, QueueFactor, SameData;
    var u := WithTicket(v, d);
    ChoiceKeepsData(u, d, queued);
    RetryKeepsData(u);
    forall m { FactorKeepsData(u, u.(chosenMethod := m), d.captchaSent, queued); }
  }

  lemma RetryKeepsData(v: View)
    ensures SameData(v, Go(v.(verifier := v.verifier.(verifyRetry := true)), Passport))
  {
  }

  lemma FactorKeepsData(v: View, w: View, captchaSent: bool, queued: bool)
    requires w.login == v.login && w.verifier.header == v.verifier.header && w.verifier.ticket == v.verifier.ticket
    requires w.verifier.aigisRetry == v.verifier.aigisRetry
    ensures SameData(v, QueueFactor(w, captchaSent, queued))
  {
    hide Finish;
  }

  lemma ChoiceKeepsData(v: View, d: InfoData, queued: bool)
    ensures ProcessCombinations(v, d, queued).1 == Done ==> SameData(v, ProcessCombinations(v, d, queued).0)
  {
    hide Finish, QueueFactor, FirstPossible, Possible, BadCombination;
    var i := FirstPossible(d.combinations);
    if i < |d.combinations| && d.combinations[i].Some? {
      var methods := d.combinations[i].value;
      var w := v.(verifier := v.verifier.(selected := methods),
          chosenMethod := if methods == [] then 0 else methods[0]);
      FactorKeepsData(v, w, d.captchaSent, queued);
    } else {
      NotPossible(d.combinations);
    }
  }

  lemma NotPossible(combinations: seq<Option<seq<int>>>)
    ensures var i := FirstPossible(combinations); i < |combinations| ==> combinations[i].Some?
  {
  }

  lemma {:induction false} RunRemembered(v: View, events: seq<Event>, w: View, t: Told)
    requires Inv(v) && Runs(v, events, w) && Clean(v, events) && Remembers(v, t)
    ensures Remembers(w, Hears(t, events))
    decreases |events|
  {
    hide Inv, After, Allowed, Heard, Remembers;
    if events != [] {
      EventKeeps(v, events[0]);
      EventRemembered(v, events[0], t);
      RunRemembered(After(v, events[0]), events[1..], w, Heard(t, events[0]));
    }
  }

  /** Over a whole run: what each piece of work uses is what the user typed or the
      server told last. The password login is made with the ciphertexts entered
      last, the game login with the token and user issued last, a check with the
      header and ticket of the last challenge, and the factor typed last. */
  lemma UsesWhatWasTold(events: seq<Event>, w: View)
    requires Runs(START, events, w) && Clean(START, events)
    ensures var t := Hears(NOTHING_TOLD, events);
            && (w.phase in {Queued(Passport), Running(Passport)} ==>
                  && w.login == t.login
                  && (w.verifier.verifyRetry ==> w.verifier.header == t.header && w.verifier.ticket == t.ticket)
                  && (w.verifier.aigisRetry ==> w.verifier.result == t.result))
            && (w.phase in {Queued(Combo), Running(Combo)} ==> w.login == t.login)
            && (w.phase in {Queued(Geetest), Running(Geetest)} ==>
                  w.verifier.gt == t.gt && w.verifier.session == t.session && w.verifier.risk == t.risk)
            && (!Terminal(w.phase) && Checking(w.phase.work) ==>
                  w.login == t.login && w.verifier.header == t.header && w.verifier.ticket == t.ticket)
            && (w.phase in {Queued(Verify), Running(Verify)} ==> w.verifier.factor == t.factor)
  {
    hide Runs, Clean, Hears;
    assert Inv(START) && Remembers(START, NOTHING_TOLD);
    RunRemembered(START, events, w, NOTHING_TOLD);
  }

  /** A login answered with a token and a user goes on with just these. */
  lemma LoggedInHolds(v: View, token: bytes, uid: bytes, queued: bool)
    requires Inv(v) && v.phase == Running(Passport) && token != [] && uid != []
    ensures var w := After(v, Finished(PassportReply(LoggedIn(token, uid)), queued));
            w.phase == Queued(Combo) && w.login == Login([], [], token, uid) && w.verifier == NO_VERIFIER
                && w.sent == v.sent && w.requests == v.requests
  {
    RunningFacts(v);
  }

  // ---- saved sessions ----

  /** Whether the start-up checks stand: TLS from the first preflight that passed;
      a session is looked for once, and a restored one has to be confirmed by a
      login whose session is stored, a request to replay it, or its invalidation. */
  lemma SessionMoves(v: View, e: Event)
    requires Inv(v) && Allowed(v, e)
    ensures var w := After(v, e);
            && (w.initialized <==> e.Init? || (v.initialized && !e.Shutdown?))
            && (w.tlsVerified <==> v.tlsVerified || (e.Finished? && e.reply == PreflightReply(true)))
            && (w.sessionChecked <==>
                  !e.Shutdown? && (v.sessionChecked || e.InvalidateSession?
                                   || (AcceptsLogin(v, e) && !v.replayPending) || StoresSession(e)))
            && (w.replayPending <==>
                  Restores(v, e)
                  || (v.replayPending && !AcceptsLogin(v, e) && !e.InvalidateSession? && !e.Shutdown?
                      && !StoresSession(e)))
            && w.requests == v.requests + (if AcceptsLogin(v, e) then 1 else 0)
  {
    hide Replied, Inv;
    if e.Finished? { ReplyKeepsSession(v, e.reply, e.callbackQueued); }
  }
}
