/** The login phase machine (source/combo_auth.c lines 289 to 345, 970 to 1001,
    1546 to 1576, 1651 to 1811, 1921 to 2013 and 2074 to 2936). What the server,
    the keyboards and the callback queue answer is an input; what the machine
    keeps in between is the state. */
module LoginFlow {
  import opened Bytes

  const METHOD_MOBILE := 1
  const METHOD_EMAIL := 2
  const METHOD_PASSWORD := 32
  const TYPE_IDENTITY := 2
  const TYPE_GEETEST := 1
  const METHOD_CAPACITY: nat := 8
  const COMBINATION_CAPACITY: nat := 8
  const MAX_STEPS: nat := 16

  /** What the main loop can be asked to do next. */
  datatype Work = Preflight | Input | Passport | Combo | Geetest | Info | Method | Captcha | FactorInput | Verify

  datatype Phase =
    | Idle | Queued(work: Work) | Running(work: Work)
    | Succeeded | Canceled | Failed | PassportRejected | ComboRejected | ChallengeRequired | VerifierUnsupported

  /** What the password login keeps: two ciphertexts, then the answer. */
  datatype Login = Login(account: bytes, password: bytes, token: bytes, uid: bytes)

  /** What a security check keeps. */
  datatype Verifier = Verifier(
    header: bytes, result: bytes, gt: bytes, session: bytes, risk: bytes, ticket: bytes, factor: bytes,
    selected: seq<int>, verifyRetry: bool, aigisRetry: bool, steps: nat)

  const NO_LOGIN := Login([], [], [], [])
  const NO_VERIFIER := Verifier([], [], [], [], [], [], [], [], false, false, 0)

  datatype View = View(
    phase: Phase, initialized: bool, tlsVerified: bool, login: Login, verifier: Verifier, chosenMethod: int,
    sessionChecked: bool, replayPending: bool,
    requests: nat,           // logins accepted so far
    sent: nat)               // completion callbacks queued for the last of them

  predicate Terminal(p: Phase) { !p.Queued? && !p.Running? }

  predicate Supported(m: int) { m == METHOD_EMAIL || m == METHOD_MOBILE || m == METHOD_PASSWORD }

  // ---- what the outside can answer ----

  datatype Keyboard = Typed(cipher: bytes) | KeyCancel | KeyFail | EncryptFail

  datatype AigisHeader = NoAigis | Aigis(useV4: bool, gt: bytes, session: bytes, risk: bytes)

  datatype VerifyHeader = NoVerify | VerifyHeader(raw: bytes, ticket: bytes, kind: int)

  datatype PassportAnswer =
    | PassportDown                        // request not made, connection failed, or an answer that is no answer
    | LoggedIn(token: bytes, uid: bytes)
    | Refused(retcode: int, aigis: AigisHeader, verify: VerifyHeader)

  datatype ComboAnswer = ComboDown | ComboRefused | ComboOk(queued: bool, stored: bool)

  datatype GeetestAnswer = BridgeFail | PromptCancel | PromptFail | NoResult | Solved(result: bytes)

  datatype Methods = Missing | BadMethods | Listed(methods: seq<int>)

  /** The parts of a verification state the machine looks at. */
  datatype InfoData = InfoData(
    ticket: Option<bytes>, shaped: bool, verified: bool, combinations: seq<Option<seq<int>>>,
    chosen: Methods, partly: Methods, captchaSent: bool)

  datatype Answer<T> = Down | Rejected(retcode: int) | Accepted(data: T)

  datatype Reply =
    | PreflightReply(ok: bool)
    | InputReply(account: Keyboard, password: Keyboard)
    | PassportReply(passport: PassportAnswer)
    | ComboReply(combo: ComboAnswer)
    | GeetestReply(geetest: GeetestAnswer)
    | InfoReply(info: Answer<InfoData>)
    | MethodReply(chosen: Answer<()>)
    | CaptchaReply(captcha: Answer<()>)
    | FactorReply(factor: Keyboard)      // for a code, `cipher` is the typed text
    | VerifyReply(verified: Answer<()>)

  // ---- ends ----

  function One(b: bool): nat { if b then 1 else 0 }

  /** What no end of an attempt touches. */
  predicate SameSession(v: View, w: View) {
    w.initialized == v.initialized && w.tlsVerified == v.tlsVerified && w.sessionChecked == v.sessionChecked
    && w.replayPending == v.replayPending && w.requests == v.requests
  }

  /** finish_error and finish_cancel: one completion callback, everything
      erased, and Failed when the callback could not be queued. */
  function Finish(v: View, terminal: Phase, queued: bool): (w: View)
    ensures SameSession(v, w) && w.phase == if queued then terminal else Failed
  {
    v.(phase := if queued then terminal else Failed, login := NO_LOGIN, verifier := NO_VERIFIER,
        sent := v.sent + One(queued))
  }

  function Go(v: View, work: Work): (w: View)
    ensures SameSession(v, w) && w.phase == Queued(work)
  {
    v.(phase := Queued(work))
  }

  // ---- the security check ----

  predicate OneTimeCode(m: int) { m == METHOD_EMAIL || m == METHOD_MOBILE }

  function QueueFactor(v: View, captchaSent: bool, queued: bool): (w: View)
    ensures SameSession(v, w)
  {
    var w := v.(verifier := v.verifier.(steps := v.verifier.steps + 1));
    if w.verifier.steps > MAX_STEPS then Finish(w, Failed, queued)
    else Go(w, if OneTimeCode(v.chosenMethod) && !captchaSent then Captcha else FactorInput)
  }

  datatype Outcome = Done | Unavailable | Invalid

  function ListOf(m: Methods): seq<int> { if m.Listed? then m.methods else [] }

  predicate BadList(m: Methods) { m.BadMethods? || (m.Listed? && |m.methods| > METHOD_CAPACITY) }

  /** The first chosen method not verified yet. */
  function NextMethod(chosen: seq<int>, partly: seq<int>): Option<int> {
    if chosen == [] then None
    else if chosen[0] in partly then NextMethod(chosen[1..], partly)
    else Some(chosen[0])
  }

  predicate BadCombination(c: Option<seq<int>>) { c.None? || c.value == [] || |c.value| > METHOD_CAPACITY }

  predicate Possible(c: Option<seq<int>>) { c.Some? && forall m | m in c.value :: Supported(m) }

  /** The first combination this client supports: its index in the list. */
  function FirstPossible(combinations: seq<Option<seq<int>>>): (r: nat)
    ensures r <= |combinations| && (r < |combinations| ==> Possible(combinations[r]))
    ensures forall i | 0 <= i < r :: !Possible(combinations[i])
  {
    if combinations == [] || Possible(combinations[0]) then 0 else 1 + FirstPossible(combinations[1..])
  }

  function ProcessInfo(v: View, d: InfoData, queued: bool): (View, Outcome) {
    if d.ticket == Some([]) then (v, Invalid)
    else
      var v := if d.ticket.Some? then v.(verifier := v.verifier.(ticket := d.ticket.value)) else v;
      if !d.shaped || |d.combinations| > COMBINATION_CAPACITY then (v, Invalid)
      else if d.verified || d.combinations == [] then
        (Go(v.(verifier := v.verifier.(verifyRetry := true)), Passport), Done)
      else if BadList(d.chosen) || BadList(d.partly) then (v, Invalid)
      else if ListOf(d.chosen) != [] then
        var m := NextMethod(ListOf(d.chosen), ListOf(d.partly));
        if m.None? then (v, Invalid)
        else if !Supported(m.value) then (v, Unavailable)
        else (QueueFactor(v.(chosenMethod := m.value), d.captchaSent, queued), Done)
      else ProcessCombinations(v, d, queued)
  }

  function ProcessCombinations(v: View, d: InfoData, queued: bool): (View, Outcome) {
    if exists c | c in d.combinations :: BadCombination(c) then (v, Invalid)
    else
      var i := FirstPossible(d.combinations);
      if i == |d.combinations| then (v, Unavailable)
      else
        var methods := d.combinations[i].value;
        var w := v.(verifier := v.verifier.(selected := methods),
            chosenMethod := if methods == [] then 0 else methods[0]);
        (if i > 0 then Go(w, Method) else QueueFactor(w, d.captchaSent, queued), Done)
  }

  // ---- what each reply does; the state is Running(work) ----

  function RunPreflight(v: View, ok: bool, queued: bool): View {
    if ok then Go(v.(tlsVerified := true), Input) else Finish(v, Failed, queued)
  }

  function RunInput(v: View, account: Keyboard, password: Keyboard, queued: bool): View {
    match account
    case KeyCancel => Finish(v, Canceled, queued)
    case KeyFail => Finish(v, Failed, queued)
    case EncryptFail => Finish(v, Failed, queued)
    case Typed(a) =>
      var v := v.(login := v.login.(account := a));
      if a == [] then Finish(v, Failed, queued) else
      match password
      case KeyCancel => Finish(v, Canceled, queued)
      case KeyFail => Finish(v, Failed, queued)
      case EncryptFail => Finish(v, Failed, queued)
      case Typed(p) =>
        if p == [] then Finish(v, Failed, queued) else Go(v.(login := v.login.(password := p)), Passport)
  }

  predicate HeaderLost(v: View) { v.verifier.verifyRetry && v.verifier.header == [] }

  predicate ResultLost(v: View) { v.verifier.aigisRetry && v.verifier.result == [] }

  predicate Challenge(retcode: int) {
    retcode in {-3101, -3104, -3239, -3240, -3105, -3233, -3228, -3264, -4212, -4211, -4213, -4209, -4200, -4225}
  }

  predicate ReadableAigis(h: AigisHeader) { h.Aigis? && h.session != [] && h.gt != [] && h.useV4 && h.risk != [] }

  predicate ReadableVerify(h: VerifyHeader) {
    h.VerifyHeader? && h.raw != [] && h.ticket != [] && (h.kind == TYPE_GEETEST || h.kind == TYPE_IDENTITY)
  }

  function RunRefused(v: View, retcode: int, aigis: AigisHeader, verify: VerifyHeader, queued: bool): View {
    if retcode == -3101 then
      if ReadableAigis(aigis) then
        Go(v.(verifier := NO_VERIFIER.(gt := aigis.gt, session := aigis.session, risk := aigis.risk)), Geetest)
      else Finish(v, ChallengeRequired, queued)
    else if Challenge(retcode) then
      if ReadableVerify(verify) && verify.kind == TYPE_IDENTITY then
        Go(v.(verifier := NO_VERIFIER.(header := verify.raw, ticket := verify.ticket)), Info)
      else Finish(v, ChallengeRequired, queued)
    else if retcode == -3208 then Go(v.(login := NO_LOGIN, verifier := NO_VERIFIER), Input)
    else Finish(v, PassportRejected, queued)
  }

  function RunPassport(v: View, r: PassportAnswer, queued: bool): View {
    if HeaderLost(v) || ResultLost(v) then Finish(v, Failed, queued)
    else
      match r
      case PassportDown => Finish(v, Failed, queued)
      case LoggedIn(token, uid) =>
        if token == [] || uid == [] then Finish(v, Failed, queued)
        else Go(v.(login := Login([], [], token, uid), verifier := NO_VERIFIER), Combo)
      case Refused(retcode, aigis, verify) => RunRefused(v, retcode, aigis, verify, queued)
  }

  function RunCombo(v: View, r: ComboAnswer, queued: bool): View {
    match r
    case ComboDown => Finish(v, Failed, queued)
    case ComboRefused => Finish(v, ComboRejected, queued)
    case ComboOk(ok, stored) =>
      if ok then
        v.(phase := Succeeded, login := NO_LOGIN, verifier := NO_VERIFIER, sent := v.sent + 1,
           sessionChecked := v.sessionChecked || stored, replayPending := v.replayPending && !stored)
      else Finish(v.(login := NO_LOGIN, verifier := NO_VERIFIER), Failed, queued)
  }

  predicate CaptchaLost(v: View) { v.verifier.gt == [] || v.verifier.session == [] || v.verifier.risk == [] }

  function RunGeetest(v: View, r: GeetestAnswer, queued: bool): View {
    if CaptchaLost(v) then Finish(v, ChallengeRequired, queued)
    else
      match r
      case BridgeFail => Finish(v, ChallengeRequired, queued)
      case PromptCancel => Finish(v, Canceled, queued)
      case PromptFail => Finish(v, ChallengeRequired, queued)
      case NoResult => Go(v, Geetest)
      case Solved(result) =>
        var v := v.(verifier := v.verifier.(result := result));
        if result == [] then Go(v, Geetest)
        else Go(v.(verifier := v.verifier.(gt := [], session := [], risk := [], aigisRetry := true)), Passport)
  }

  function RunInfo(v: View, r: Answer<InfoData>, queued: bool): View {
    match r
    case Down => Finish(v, Failed, queued)
    case Rejected(_) => Finish(v, PassportRejected, queued)
    case Accepted(d) =>
      var p := ProcessInfo(v, d, queued);
      match p.1
      case Done => p.0
      case Unavailable => Finish(p.0, VerifierUnsupported, queued)
      case Invalid => Finish(p.0, Failed, queued)
  }

  function RunMethod(v: View, r: Answer<()>, queued: bool): View {
    if v.verifier.selected == [] then Finish(v, Failed, queued)
    else
      match r
      case Down => Finish(v, Failed, queued)
      case Rejected(_) => Finish(v, PassportRejected, queued)
      case Accepted(_) => Go(v, Info)
  }

  function RunCaptcha(v: View, r: Answer<()>, queued: bool): View {
    if !OneTimeCode(v.chosenMethod) then Finish(v, Failed, queued)
    else
      match r
      case Down => Finish(v, Failed, queued)
      case Rejected(_) => Finish(v, PassportRejected, queued)
      case Accepted(_) => Go(v, FactorInput)
  }

  predicate SixDigits(text: bytes) { |text| == 6 && forall b | b in text :: 48 <= b <= 57 }

  function RunFactor(v: View, r: Keyboard, queued: bool): View {
    if !Supported(v.chosenMethod) then Finish(v, VerifierUnsupported, queued)
    else
      match r
      case KeyCancel => Finish(v, Canceled, queued)
      case KeyFail => Finish(v, Failed, queued)
      case EncryptFail => Finish(v, Failed, queued)
      case Typed(text) =>
        if v.chosenMethod == METHOD_PASSWORD then
          if text == [] then Finish(v, Failed, queued)
          else Go(v.(verifier := v.verifier.(factor := text)), Verify)
        else if SixDigits(text) then Go(v.(verifier := v.verifier.(factor := text)), Verify)
        else Go(v.(verifier := v.verifier.(factor := [])), FactorInput)
  }

  function RunVerify(v: View, r: Answer<()>, queued: bool): View {
    var w := v.(verifier := v.verifier.(factor := []));
    if !Supported(v.chosenMethod) || v.verifier.factor == [] then Finish(w, Failed, queued)
    else
      match r
      case Down => Finish(w, Failed, queued)
      case Rejected(retcode) =>
        if retcode != -3003 && retcode != -100 then Go(w, FactorInput) else Finish(w, PassportRejected, queued)
      case Accepted(_) => Go(w, Info)
  }

  predicate Answers(work: Work, r: Reply) {
    match work
    case Preflight => r.PreflightReply?
    case Input => r.InputReply?
    case Passport => r.PassportReply?
    case Combo => r.ComboReply?
    case Geetest => r.GeetestReply?
    case Info => r.InfoReply?
    case Method => r.MethodReply?
    case Captcha => r.CaptchaReply?
    case FactorInput => r.FactorReply?
    case Verify => r.VerifyReply?
  }

  function Replied(v: View, r: Reply, queued: bool): View {
    match r
    case PreflightReply(ok) => RunPreflight(v, ok, queued)
    case InputReply(account, password) => RunInput(v, account, password, queued)
    case PassportReply(p) => RunPassport(v, p, queued)
    case ComboReply(c) => RunCombo(v, c, queued)
    case GeetestReply(g) => RunGeetest(v, g, queued)
    case InfoReply(a) => RunInfo(v, a, queued)
    case MethodReply(a) => RunMethod(v, a, queued)
    case CaptchaReply(a) => RunCaptcha(v, a, queued)
    case FactorReply(k) => RunFactor(v, k, queued)
    case VerifyReply(a) => RunVerify(v, a, queued)
  }

  // ---- requests and the rest of the interface ----

  datatype RequestResult = RequestRejected | RequestQueued | SessionRestored

  /** `loaded`: a saved session could be read; `queued`: its callback was taken. */
  function Request(v: View, callbackIndex: int, loaded: bool, queued: bool): (View, RequestResult) {
    if !v.initialized || callbackIndex < 0 || !Terminal(v.phase) then (v, RequestRejected)
    else
      var w := v.(login := NO_LOGIN, verifier := NO_VERIFIER, chosenMethod := 0, requests := v.requests + 1, sent := 0);
      var interactive := Go(w, if v.tlsVerified then Input else Preflight);
      if v.replayPending then (interactive.(replayPending := false), RequestQueued)
      else if v.sessionChecked || !loaded || !queued then (interactive.(sessionChecked := true), RequestQueued)
      else (w.(phase := Succeeded, sessionChecked := true, replayPending := true, sent := 1), SessionRestored)
  }

  function Invalidated(v: View): View {
    v.(phase := if v.phase == Succeeded then Idle else v.phase, sessionChecked := true, replayPending := false)
  }

  function ShutDown(v: View): View {
    v.(initialized := false, login := NO_LOGIN, verifier := NO_VERIFIER, sessionChecked := false,
        replayPending := false)
  }

  datatype Event =
    | Init
    | RequestLogin(callbackIndex: int, loaded: bool, callbackQueued: bool)
    | InvalidateSession
    | Begin                                  // a tick or a keyboard takes up the queued work
    | Finished(reply: Reply, callbackQueued: bool)
    | Shutdown

  predicate Networked(work: Work) { !work.Input? && !work.FactorInput? && !work.Geetest? }

  predicate Allowed(v: View, e: Event) {
    match e
    case Begin => v.phase.Queued? && (Networked(v.phase.work) ==> v.initialized)
    case Finished(r, _) => v.phase.Running? && Answers(v.phase.work, r)
    case Shutdown => !v.phase.Running?
    case _ => true
  }

  function After(v: View, e: Event): View
    requires Allowed(v, e)
  {
    match e
    case Init => v.(initialized := true)
    case RequestLogin(index, loaded, queued) => Request(v, index, loaded, queued).0
    case InvalidateSession => Invalidated(v)
    case Begin => v.(phase := Running(v.phase.work))
    case Finished(r, queued) => Replied(v, r, queued)
    case Shutdown => ShutDown(v)
  }

  const START := View(Idle, false, false, NO_LOGIN, NO_VERIFIER, 0, false, false, 0, 0)

  // ---- what each phase carries ----

  predicate HasCiphers(l: Login) { l.account != [] && l.password != [] }

  predicate NoRetry(r: Verifier) { !r.verifyRetry && !r.aigisRetry }

  predicate InCheck(l: Login, r: Verifier) { HasCiphers(l) && NoRetry(r) && r.header != [] && r.ticket != [] }

  /** The data the runner of `work` needs. */
  predicate Carries(work: Work, l: Login, r: Verifier, m: int) {
    match work
    case Preflight => l == NO_LOGIN && r == NO_VERIFIER
    case Input => l == NO_LOGIN && r == NO_VERIFIER
    case Passport =>
      && HasCiphers(l) && !(r.verifyRetry && r.aigisRetry)
      && (r.verifyRetry ==> r.header != []) && (r.aigisRetry ==> r.result != [])
    case Combo => l.token != [] && l.uid != [] && l.account == [] && l.password == [] && r == NO_VERIFIER
    case Geetest => HasCiphers(l) && NoRetry(r) && r.gt != [] && r.session != [] && r.risk != []
    case Info => InCheck(l, r)
    case Method => InCheck(l, r) && r.selected != [] && forall m | m in r.selected :: Supported(m)
    case Captcha => InCheck(l, r) && OneTimeCode(m)
    case FactorInput => InCheck(l, r) && Supported(m)
    case Verify => InCheck(l, r) && Supported(m) && r.factor != []
  }

  predicate Inv(v: View) {
    && v.verifier.steps <= MAX_STEPS
    && (v.verifier.factor != [] ==> v.phase in {Queued(Verify), Running(Verify)})
    && (if Terminal(v.phase) then
          && v.login == NO_LOGIN && v.verifier == NO_VERIFIER
          && (if v.requests == 0 then v.phase == Idle && v.sent == 0
              else v.sent <= 1 && (v.phase != Failed ==> v.sent == 1))
        else
          v.requests > 0 && v.sent == 0 && Carries(v.phase.work, v.login, v.verifier, v.chosenMethod))
  }

  // ---- every step keeps it ----

  predicate UnderWay(v: View) { v.requests > 0 && v.sent == 0 && v.verifier.steps <= MAX_STEPS }

  lemma RunningFacts(v: View)
    requires Inv(v) && v.phase.Running?
    ensures UnderWay(v) && Carries(v.phase.work, v.login, v.verifier, v.chosenMethod)
    ensures v.verifier.factor != [] ==> v.phase.work == Verify
  {
  }

  lemma FinishKeeps(v: View, terminal: Phase, queued: bool)
    requires v.requests > 0 && v.sent == 0 && Terminal(terminal) && terminal != Idle
    ensures Inv(Finish(v, terminal, queued))
  {
  }

  lemma GoKeeps(v: View, work: Work)
    requires UnderWay(v) && Carries(work, v.login, v.verifier, v.chosenMethod)
    requires v.verifier.factor != [] ==> work == Verify
    ensures Inv(Go(v, work))
  {
  }

  lemma PreflightKeeps(v: View, ok: bool, queued: bool)
    requires Inv(v) && v.phase == Running(Preflight)
    ensures Inv(RunPreflight(v, ok, queued))
  {
    hide Inv, Finish, Go;
    RunningFacts(v);
    FinishKeeps(v, Failed, queued);
    GoKeeps(v.(tlsVerified := true), Input);
  }

  lemma InputKeeps(v: View, account: Keyboard, password: Keyboard, queued: bool)
    requires Inv(v) && v.phase == Running(Input)
    ensures Inv(RunInput(v, account, password, queued))
  {
    hide Inv, Finish, Go;
    RunningFacts(v);
    FinishKeeps(v, Failed, queued);
    FinishKeeps(v, Canceled, queued);
    if account.Typed? {
      var w := v.(login := v.login.(account := account.cipher));
      FinishKeeps(w, Failed, queued);
      FinishKeeps(w, Canceled, queued);
      if password.Typed? && account.cipher != [] && password.cipher != [] {
        GoKeeps(w.(login := w.login.(password := password.cipher)), Passport);
      }
    }
  }

  lemma RefusedKeeps(v: View, retcode: int, aigis: AigisHeader, verify: VerifyHeader, queued: bool)
    requires UnderWay(v) && HasCiphers(v.login)
    ensures Inv(RunRefused(v, retcode, aigis, verify, queued))
  {
    hide Inv, Finish, Go, Challenge;
    FinishKeeps(v, ChallengeRequired, queued);
    FinishKeeps(v, PassportRejected, queued);
    if retcode == -3101 {
      if ReadableAigis(aigis) {
        GoKeeps(v.(verifier := NO_VERIFIER.(gt := aigis.gt, session := aigis.session, risk := aigis.risk)), Geetest);
      }
    } else if Challenge(retcode) {
      if ReadableVerify(verify) {
        GoKeeps(v.(verifier := NO_VERIFIER.(header := verify.raw, ticket := verify.ticket)), Info);
      }
    } else {
      GoKeeps(v.(login := NO_LOGIN, verifier := NO_VERIFIER), Input);
    }
  }

  lemma PassportKeeps(v: View, r: PassportAnswer, queued: bool)
    requires Inv(v) && v.phase == Running(Passport)
    ensures Inv(RunPassport(v, r, queued))
  {
    hide Inv, Finish, Go, RunRefused;
    RunningFacts(v);
    FinishKeeps(v, Failed, queued);
    match r
    case PassportDown =>
    case LoggedIn(token, uid) =>
      if token != [] && uid != [] {
        GoKeeps(v.(login := Login([], [], token, uid), verifier := NO_VERIFIER), Combo);
      }
    case Refused(retcode, aigis, verify) => RefusedKeeps(v, retcode, aigis, verify, queued);
  }

  lemma ComboKeeps(v: View, r: ComboAnswer, queued: bool)
    requires Inv(v) && v.phase == Running(Combo)
    ensures Inv(RunCombo(v, r, queued))
  {
  }

  lemma GeetestKeeps(v: View, r: GeetestAnswer, queued: bool)
    requires Inv(v) && v.phase == Running(Geetest)
    ensures Inv(RunGeetest(v, r, queued))
  {
    hide Inv, Finish, Go;
    RunningFacts(v);
    FinishKeeps(v, Canceled, queued);
    FinishKeeps(v, ChallengeRequired, queued);
    GoKeeps(v, Geetest);
    if r.Solved? {
      var w := v.(verifier := v.verifier.(result := r.result));
      GoKeeps(w, Geetest);
      if r.result != [] {
        GoKeeps(w.(verifier := w.verifier.(gt := [], session := [], risk := [], aigisRetry := true)), Passport);
      }
    }
  }

  lemma MethodKeeps(v: View, r: Answer<()>, queued: bool)
    requires Inv(v) && v.phase == Running(Method)
    ensures Inv(RunMethod(v, r, queued))
  {
    hide Inv, Finish, Go;
    RunningFacts(v);
    FinishKeeps(v, Failed, queued);
    FinishKeeps(v, PassportRejected, queued);
    GoKeeps(v, Info);
  }

  lemma CaptchaKeeps(v: View, r: Answer<()>, queued: bool)
    requires Inv(v) && v.phase == Running(Captcha)
    ensures Inv(RunCaptcha(v, r, queued))
  {
    hide Inv, Finish, Go;
    RunningFacts(v);
    FinishKeeps(v, Failed, queued);
    FinishKeeps(v, PassportRejected, queued);
    GoKeeps(v, FactorInput);
  }

  lemma FactorInputKeeps(v: View, r: Keyboard, queued: bool)
    requires Inv(v) && v.phase == Running(FactorInput)
    ensures Inv(RunFactor(v, r, queued))
  {
    hide Inv, Finish, Go;
    RunningFacts(v);
    FinishKeeps(v, Failed, queued);
    FinishKeeps(v, Canceled, queued);
    FinishKeeps(v, VerifierUnsupported, queued);
    GoKeeps(v.(verifier := v.verifier.(factor := [])), FactorInput);
    if r.Typed? && r.cipher != [] {
      GoKeeps(v.(verifier := v.verifier.(factor := r.cipher)), Verify);
    }
  }

  lemma VerifyKeeps(v: View, r: Answer<()>, queued: bool)
    requires Inv(v) && v.phase == Running(Verify)
    ensures Inv(RunVerify(v, r, queued))
  {
    hide Inv, Finish, Go;
    RunningFacts(v);
    var w := v.(verifier := v.verifier.(factor := []));
    FinishKeeps(w, Failed, queued);
    FinishKeeps(w, PassportRejected, queued);
    GoKeeps(w, FactorInput);
    GoKeeps(w, Info);
  }

  lemma {:induction false} NextMethodIsChosen(chosen: seq<int>, partly: seq<int>)
    ensures NextMethod(chosen, partly).Some? ==>
        NextMethod(chosen, partly).value in chosen && NextMethod(chosen, partly).value !in partly
    ensures NextMethod(chosen, partly).None? <==> forall m | m in chosen :: m in partly
    decreases |chosen|
  {
    if chosen != [] {
      assert chosen == [chosen[0]] + chosen[1..];
      NextMethodIsChosen(chosen[1..], partly);
      if chosen[0] in partly {
        assert forall m :: m in chosen <==> m == chosen[0] || m in chosen[1..];
      } else {
        assert chosen[0] in chosen;
      }
    }
  }

  lemma QueueFactorKeeps(v: View, captchaSent: bool, queued: bool)
    requires UnderWay(v) && InCheck(v.login, v.verifier) && v.verifier.factor == [] && Supported(v.chosenMethod)
    ensures Inv(QueueFactor(v, captchaSent, queued))
  {
    hide Inv, Finish, Go;
    var w := v.(verifier := v.verifier.(steps := v.verifier.steps + 1));
    FinishKeeps(w, Failed, queued);
    if w.verifier.steps <= MAX_STEPS {
      GoKeeps(w, if OneTimeCode(v.chosenMethod) && !captchaSent then Captcha else FactorInput);
    }
  }

  /** The choice among the combinations is a method this client supports. */
  lemma CombinationsKeep(v: View, d: InfoData, queued: bool)
    requires UnderWay(v) && InCheck(v.login, v.verifier) && v.verifier.factor == []
    ensures ProcessCombinations(v, d, queued).1 == Done ==> Inv(ProcessCombinations(v, d, queued).0)
    ensures ProcessCombinations(v, d, queued).1 != Done ==> ProcessCombinations(v, d, queued).0 == v
  {
    hide Inv, Finish, Go, QueueFactor;
    if !exists c | c in d.combinations :: BadCombination(c) {
      var i := FirstPossible(d.combinations);
      if i < |d.combinations| {
        var methods := d.combinations[i].value;
        assert !BadCombination(d.combinations[i]) by { assert d.combinations[i] in d.combinations; }
        assert methods[0] in methods;
        var w := v.(verifier := v.verifier.(selected := methods),
            chosenMethod := if methods == [] then 0 else methods[0]);
        GoKeeps(w, Method);
        QueueFactorKeeps(w, d.captchaSent, queued);
      }
    }
  }

  lemma ProcessKeeps(v: View, d: InfoData, queued: bool)
    requires UnderWay(v) && InCheck(v.login, v.verifier) && v.verifier.factor == []
    ensures ProcessInfo(v, d, queued).1 == Done ==> Inv(ProcessInfo(v, d, queued).0)
    ensures ProcessInfo(v, d, queued).1 != Done ==>
        ProcessInfo(v, d, queued).0.requests > 0 && ProcessInfo(v, d, queued).0.sent == 0
  {
    hide Inv, Finish, Go, QueueFactor, ProcessCombinations, NextMethod;
    var w := if d.ticket.Some? && d.ticket.value != []
             then v.(verifier := v.verifier.(ticket := d.ticket.value)) else v;
    GoKeeps(w.(verifier := w.verifier.(verifyRetry := true)), Passport);
    var m := NextMethod(ListOf(d.chosen), ListOf(d.partly));
    if m.Some? && Supported(m.value) {
      QueueFactorKeeps(w.(chosenMethod := m.value), d.captchaSent, queued);
    }
    CombinationsKeep(w, d, queued);
  }

  lemma InfoKeeps(v: View, r: Answer<InfoData>, queued: bool)
    requires Inv(v) && v.phase == Running(Info)
    ensures Inv(RunInfo(v, r, queued))
  {
    hide Inv, Finish, Go, ProcessInfo;
    RunningFacts(v);
    FinishKeeps(v, Failed, queued);
    FinishKeeps(v, PassportRejected, queued);
    if r.Accepted? {
      ProcessKeeps(v, r.data, queued);
      var p := ProcessInfo(v, r.data, queued);
      if p.1 != Done {
        FinishKeeps(p.0, VerifierUnsupported, queued);
        FinishKeeps(p.0, Failed, queued);
      }
    }
  }

  lemma RepliedKeeps(v: View, r: Reply, queued: bool)
    requires Inv(v) && v.phase.Running? && Answers(v.phase.work, r)
    ensures Inv(Replied(v, r, queued))
  {
    hide Inv, RunPreflight, RunInput, RunPassport, RunCombo, RunGeetest, RunInfo, RunMethod, RunCaptcha, RunFactor,
        RunVerify;
    match r
    case PreflightReply(ok) => PreflightKeeps(v, ok, queued);
    case InputReply(account, password) => InputKeeps(v, account, password, queued);
    case PassportReply(p) => PassportKeeps(v, p, queued);
    case ComboReply(c) => ComboKeeps(v, c, queued);
    case GeetestReply(g) => GeetestKeeps(v, g, queued);
    case InfoReply(a) => InfoKeeps(v, a, queued);
    case MethodReply(a) => MethodKeeps(v, a, queued);
    case CaptchaReply(a) => CaptchaKeeps(v, a, queued);
    case FactorReply(k) => FactorInputKeeps(v, k, queued);
    case VerifyReply(a) => VerifyKeeps(v, a, queued);
  }

  /** A shutdown erases what was collected but leaves the phase, so it keeps the
      invariant exactly when the phase needs nothing collected. */
  predicate Restartable(p: Phase) { Terminal(p) || p in {Queued(Preflight), Queued(Input)} }

  lemma ShutdownKeepsExactly(v: View)
    requires Inv(v) && !v.phase.Running?
    ensures Inv(ShutDown(v)) <==> Restartable(v.phase)
  {
  }

  const TYPED := View(Queued(Passport), true, true, Login([65], [65], [], []), NO_VERIFIER, 0, true, false, 1, 0)

  /** A login up to the typed credentials. */
  lemma CredentialsTyped() returns (events: seq<Event>)
    ensures Runs(START, events, TYPED)
  {
    var v1 := After(START, Init);
    var v2 := After(v1, RequestLogin(0, false, false));
    var v3 := After(v2, Begin);
    var v4 := After(v3, Finished(PreflightReply(true), true));
    var v5 := After(v4, Begin);
    var last := Finished(InputReply(Typed([65]), Typed([65])), true);
    assert After(v5, last) == TYPED;
    hide After, Allowed;
    events := [Init, RequestLogin(0, false, false), Begin, Finished(PreflightReply(true), true), Begin, last];
    Start(v5, [last], TYPED);
    Start(v4, [Begin, last], TYPED);
    Start(v3, [Finished(PreflightReply(true), true), Begin, last], TYPED);
    Start(v2, [Begin, Finished(PreflightReply(true), true), Begin, last], TYPED);
    Start(v1, [RequestLogin(0, false, false), Begin, Finished(PreflightReply(true), true), Begin, last], TYPED);
    Start(START, events, TYPED);
  }

  lemma Start(v: View, events: seq<Event>, w: View)
    requires events != [] && Allowed(v, events[0]) && Runs(After(v, events[0]), events[1..], w)
    ensures Runs(v, events, w)
  {
  }

  /** The failing case: credentials queued, shutdown, start again, tick. */
  lemma LoginLostByShutdown()
    ensures exists events, w :: Runs(START, events, w) && w.phase == Running(Passport) && w.login == NO_LOGIN
  {
    var events := CredentialsTyped();
    var v1 := After(TYPED, Shutdown);
    var v2 := After(v1, Init);
    var w := After(v2, Begin);
    assert w.phase == Running(Passport) && w.login == NO_LOGIN;
    Extend(START, events, TYPED, Shutdown);
    Extend(START, events + [Shutdown], v1, Init);
    Extend(START, events + [Shutdown] + [Init], v2, Begin);
  }

  predicate Runs(v: View, events: seq<Event>, w: View)
    decreases |events|
  {
    if events == [] then w == v
    else Allowed(v, events[0]) && Runs(After(v, events[0]), events[1..], w)
  }

  lemma {:induction false} Extend(v: View, events: seq<Event>, w: View, e: Event)
    requires Runs(v, events, w) && Allowed(w, e)
    ensures Runs(v, events + [e], After(w, e))
    decreases |events|
  {
    hide After, Allowed;
    if events == [] {
      assert (events + [e])[1..] == [];
    } else {
      assert (events + [e])[1..] == events[1..] + [e];
      Extend(After(v, events[0]), events[1..], w, e);
    }
  }

  /** A run in which every shutdown meets a phase that needs nothing. */
  predicate Clean(v: View, events: seq<Event>)
    decreases |events|
  {
    events != [] && Allowed(v, events[0]) ==>
      (events[0].Shutdown? ==> Restartable(v.phase)) && Clean(After(v, events[0]), events[1..])
  }

  lemma EventKeeps(v: View, e: Event)
    requires Inv(v) && Allowed(v, e) && (e.Shutdown? ==> Restartable(v.phase))
    ensures Inv(After(v, e))
  {
    hide Replied;
    match e
    case Finished(r, queued) => RepliedKeeps(v, r, queued);
    case Shutdown => ShutdownKeepsExactly(v);
    case _ =>
  }

  lemma {:induction false} RunKeeps(v: View, events: seq<Event>, w: View)
    requires Inv(v) && Runs(v, events, w) && Clean(v, events)
    ensures Inv(w)
    decreases |events|
  {
    hide Inv, After, Allowed;
    if events != [] {
      EventKeeps(v, events[0]);
      RunKeeps(After(v, events[0]), events[1..], w);
    }
  }

  /** No runner ever finds what it needs missing: the branches for lost state,
      an unsupported method, or nothing selected are never taken. */
  lemma NothingIsLost(events: seq<Event>, w: View)
    requires Runs(START, events, w) && Clean(START, events)
    ensures w.phase.Queued? || w.phase.Running? ==> Carries(w.phase.work, w.login, w.verifier, w.chosenMethod)
    ensures w.phase == Running(Passport) ==> !HeaderLost(w) && !ResultLost(w) && HasCiphers(w.login)
    ensures w.phase == Running(Geetest) ==> !CaptchaLost(w)
    ensures w.phase == Running(Method) ==> w.verifier.selected != []
    ensures w.phase == Running(Captcha) ==> OneTimeCode(w.chosenMethod)
    ensures w.phase == Running(FactorInput) ==> Supported(w.chosenMethod)
    ensures w.phase == Running(Verify) ==> Supported(w.chosenMethod) && w.verifier.factor != []
    ensures !(w.verifier.verifyRetry && w.verifier.aigisRetry) && w.verifier.steps <= MAX_STEPS
  {
    RunKeeps(START, events, w);
  }

  /** Each accepted request gets one completion callback at most: none while it
      is under way, exactly one at every end but Failed, where it may be lost. */
  lemma OneCallback(events: seq<Event>, w: View)
    requires Runs(START, events, w) && Clean(START, events)
    ensures w.sent <= 1
    ensures !Terminal(w.phase) ==> w.sent == 0
    ensures Terminal(w.phase) && w.phase != Failed && w.requests > 0 ==> w.sent == 1
    ensures w.requests == 0 ==> w.phase == Idle && w.sent == 0
  {
    RunKeeps(START, events, w);
  }

  /** Nothing typed or issued outlives its use: no ciphertext, token or ticket at
      any end, no ciphertext once the password login succeeded, and a
      verification factor only while it waits to be sent. */
  lemma SecretsAreErased(events: seq<Event>, w: View)
    requires Runs(START, events, w) && Clean(START, events)
    ensures Terminal(w.phase) ==> w.login == NO_LOGIN && w.verifier == NO_VERIFIER
    ensures w.phase in {Queued(Combo), Running(Combo)} ==>
        w.login.account == [] && w.login.password == [] && w.verifier == NO_VERIFIER
    ensures w.verifier.factor != [] ==> w.phase in {Queued(Verify), Running(Verify)}
  {
    RunKeeps(START, events, w);
  }

  /** A run of the program, which shuts down when it exits: a shutdown may meet any
      phase, but no work begins after one that erased what the phase needs. */
  predicate UntilExit(v: View, events: seq<Event>)
    decreases |events|
  {
    events != [] && Allowed(v, events[0]) ==>
      && (events[0].Shutdown? ==> Restartable(v.phase) || forall e | e in events[1..] :: !e.Begin?)
      && UntilExit(After(v, events[0]), events[1..])
  }

  /** Work is queued whose data a shutdown erased. */
  predicate Abandoned(v: View) {
    v.phase.Queued? && v.login == NO_LOGIN && v.verifier == NO_VERIFIER && v.requests > 0 && v.sent == 0
  }

  lemma ShutdownAbandons(v: View)
    requires Inv(v) && !v.phase.Running? && !Restartable(v.phase)
    ensures Abandoned(ShutDown(v))
  {
  }

  lemma {:induction false} AbandonedStays(v: View, events: seq<Event>, w: View)
    requires Abandoned(v) && Runs(v, events, w) && forall e | e in events :: !e.Begin?
    ensures Abandoned(w)
    decreases |events|
  {
    if events != [] {
      assert !events[0].Begin?;
      AbandonedStays(After(v, events[0]), events[1..], w);
    }
  }

  lemma {:induction false} RunKeepsUntilExit(v: View, events: seq<Event>, w: View)
    requires Inv(v) && Runs(v, events, w) && UntilExit(v, events)
    ensures Inv(w) || Abandoned(w)
    decreases |events|
  {
    hide Inv, Abandoned, After, Allowed, Restartable;
    if events != [] {
      if events[0].Shutdown? && !Restartable(v.phase) {
        NotRunning(v);
        ShutdownAbandons(v);
        AbandonedStays(After(v, events[0]), events[1..], w);
      } else {
        EventKeeps(v, events[0]);
        RunKeepsUntilExit(After(v, events[0]), events[1..], w);
      }
    }
  }

  lemma NotRunning(v: View)
    requires Allowed(v, Shutdown)
    ensures !v.phase.Running? && After(v, Shutdown) == ShutDown(v)
  {
  }

  /** The same promises up to the exit of the program, whatever it interrupts: no
      runner finds its data missing, completions are counted as above, and nothing
      secret is left behind. */
  lemma PromisesUntilExit(events: seq<Event>, w: View)
    requires Runs(START, events, w) && UntilExit(START, events)
    ensures w.phase.Running? ==> Carries(w.phase.work, w.login, w.verifier, w.chosenMethod)
    ensures w.phase.Queued? ==> Carries(w.phase.work, w.login, w.verifier, w.chosenMethod) || Abandoned(w)
    ensures w.phase == Running(Passport) ==> !HeaderLost(w) && !ResultLost(w) && HasCiphers(w.login)
    ensures w.phase == Running(Geetest) ==> !CaptchaLost(w)
    ensures w.sent <= 1 && (!Terminal(w.phase) ==> w.sent == 0)
    ensures Terminal(w.phase) && w.phase != Failed && w.requests > 0 ==> w.sent == 1
    ensures Terminal(w.phase) ==> w.login == NO_LOGIN && w.verifier == NO_VERIFIER
    ensures w.verifier.factor != [] ==> w.phase in {Queued(Verify), Running(Verify)}
  {
    RunKeepsUntilExit(START, events, w);
  }

  /** A saved session is replayed once at most between two shutdowns. */
  lemma {:induction false} ReplayedOnce(v: View, events: seq<Event>, w: View, index: int, loaded: bool, queued: bool)
    requires v.sessionChecked && Runs(v, events, w) && forall e | e in events :: !e.Shutdown?
    ensures w.sessionChecked && Request(w, index, loaded, queued).1 != SessionRestored
    decreases |events|
  {
    if events != [] {
      CheckedStays(v, events[0]);
      ReplayedOnce(After(v, events[0]), events[1..], w, index, loaded, queued);
    }
  }

  lemma CheckedStays(v: View, e: Event)
    requires v.sessionChecked && Allowed(v, e) && !e.Shutdown?
    ensures After(v, e).sessionChecked
  {
    hide Replied;
    if e.Finished? { ReplyKeepsSession(v, e.reply, e.callbackQueued); }
  }

  /** The game login succeeded and its session was saved. */
  predicate StoresSession(e: Event) {
    e.Finished? && e.reply.ComboReply? && e.reply.combo.ComboOk? && e.reply.combo.queued && e.reply.combo.stored
  }

  lemma ReplyKeepsSession(v: View, r: Reply, queued: bool)
    ensures var w, stores := Replied(v, r, queued), StoresSession(Finished(r, queued));
            && w.initialized == v.initialized && w.requests == v.requests
            && (w.tlsVerified <==> v.tlsVerified || r == PreflightReply(true))
            && (w.sessionChecked <==> v.sessionChecked || stores)
            && (w.replayPending <==> v.replayPending && !stores)
  {
    hide Finish, Go, ProcessInfo, RunInput, RunPassport, RunGeetest, RunMethod, RunCaptcha, RunFactor, RunVerify;
    match r
    case InputReply(account, password) => InputKeepsSession(v, account, password, queued);
    case PassportReply(p) => PassportKeepsSession(v, p, queued);
    case GeetestReply(g) => GeetestKeepsSession(v, g, queued);
    case FactorReply(k) => FactorKeepsSession(v, k, queued);
    case InfoReply(a) => if a.Accepted? { InfoKeepsSession(v, a.data, queued); }
    case MethodReply(a) => CheckKeepsSession(v, a, queued);
    case CaptchaReply(a) => CheckKeepsSession(v, a, queued);
    case VerifyReply(a) => CheckKeepsSession(v, a, queued);
    case _ =>
  }

  lemma InputKeepsSession(v: View, account: Keyboard, password: Keyboard, queued: bool)
    ensures SameSession(v, RunInput(v, account, password, queued))
  {
    hide Finish, Go;
  }

  lemma CheckKeepsSession(v: View, a: Answer<()>, queued: bool)
    ensures SameSession(v, RunMethod(v, a, queued)) && SameSession(v, RunCaptcha(v, a, queued))
    ensures SameSession(v, RunVerify(v, a, queued))
  {
    hide Finish, Go;
  }

  lemma PassportKeepsSession(v: View, p: PassportAnswer, queued: bool)
    ensures SameSession(v, RunPassport(v, p, queued))
  {
    hide Finish, Go, Challenge;
  }

  lemma GeetestKeepsSession(v: View, g: GeetestAnswer, queued: bool)
    ensures SameSession(v, RunGeetest(v, g, queued))
  {
    hide Finish, Go;
  }

  lemma FactorKeepsSession(v: View, k: Keyboard, queued: bool)
    ensures SameSession(v, RunFactor(v, k, queued))
  {
    hide Finish, Go, SixDigits;
  }

  /** A verification state has nothing to do with sessions. */
  lemma InfoKeepsSession(v: View, d: InfoData, queued: bool)
    ensures SameSession(v, ProcessInfo(v, d, queued).0)
  {
    hide Finish, Go, QueueFactor, NextMethod, ProcessCombinations;
    ChoiceKeepsSession(if d.ticket.Some? then v.(verifier := v.verifier.(ticket := d.ticket.value)) else v, d, queued);
  }

  lemma ChoiceKeepsSession(v: View, d: InfoData, queued: bool)
    ensures SameSession(v, ProcessCombinations(v, d, queued).0)
  {
    hide Finish, Go, QueueFactor, FirstPossible, Possible, BadCombination;
  }

  lemma FirstIs(combinations: seq<Option<seq<int>>>, i: nat)
    requires i <= |combinations| && (i < |combinations| ==> Possible(combinations[i]))
    requires forall j | 0 <= j < i :: !Possible(combinations[j])
    ensures i == FirstPossible(combinations)
  {
    hide Possible;
  }

  lemma EmptyLogin(v: View)
    requires Inv(v) && v.phase == Running(Input)
    ensures v.login == NO_LOGIN
  {
  }

  lemma PassportLeads(v: View, r: PassportAnswer, queued: bool)
    requires Inv(v) && v.phase == Running(Passport)
    ensures var w := RunPassport(v, r, queued);
            && (w.phase == Queued(Combo) <==> r.LoggedIn? && r.token != [] && r.uid != [])
            && (w.phase == Queued(Combo) ==> w.login == Login([], [], r.token, r.uid))
  {
    hide Inv, Finish, Challenge;
    RunningFacts(v);
  }

  lemma FactorLeads(v: View, r: Keyboard, queued: bool)
    requires Inv(v) && v.phase == Running(FactorInput)
    ensures var w := RunFactor(v, r, queued);
            && (w.phase == Queued(Verify) <==>
                  r.Typed? && if v.chosenMethod == METHOD_PASSWORD then r.cipher != [] else SixDigits(r.cipher))
            && (w.phase == Queued(Verify) ==> w.verifier.factor == r.cipher)
            && (w.phase == Canceled <==> r == KeyCancel && queued)
  {
    hide Inv, Finish, SixDigits;
    RunningFacts(v);
  }

  // ---- the machine itself ----

  class LoginMachine {
    var phase: Phase
    var initialized: bool
    var tlsVerified: bool
    var login: Login
    var verifier: Verifier
    var chosenMethod: int
    var sessionChecked: bool
    var replayPending: bool
    ghost var requests: nat
    ghost var sent: nat

    ghost function Now(): View
      reads this
    {
      View(phase, initialized, tlsVerified, login, verifier, chosenMethod, sessionChecked, replayPending, requests,
          sent)
    }

    constructor ()
      ensures Now() == START && Inv(Now())
    {
      phase, initialized, tlsVerified, login, verifier, chosenMethod := Idle, false, false, NO_LOGIN, NO_VERIFIER, 0;
      sessionChecked, replayPending, requests, sent := false, false, 0, 0;
    }

    method FinishWith(terminal: Phase, queued: bool)
      modifies this
      ensures Now() == Finish(old(Now()), terminal, queued)
    {
      if queued { sent := sent + 1; }
      EraseAttemptSecrets();
      phase := if queued then terminal else Failed;
    }

    method EraseAttemptSecrets()
      modifies this`login, this`verifier
      ensures login == NO_LOGIN && verifier == NO_VERIFIER
    {
      login, verifier := NO_LOGIN, NO_VERIFIER;
    }

    method RequestLogin(callbackIndex: int, loaded: bool, queued: bool) returns (result: RequestResult)
      requires Inv(Now())
      modifies this
      ensures (Now(), result) == Request(old(Now()), callbackIndex, loaded, queued) && Inv(Now())
    {
      hide Inv;
      EventKeeps(Now(), Event.RequestLogin(callbackIndex, loaded, queued));
      if !initialized || callbackIndex < 0 || phase.Queued? || phase.Running? { return RequestRejected; }
      EraseAttemptSecrets();
      chosenMethod := 0;
      requests, sent := requests + 1, 0;
      if replayPending {
        replayPending := false;
      } else if !sessionChecked {
        sessionChecked := true;
        if loaded && queued {
          sent := 1;
          replayPending := true;
          phase := Succeeded;
          return SessionRestored;
        }
      }
      phase := Queued(if tlsVerified then Input else Preflight);
      return RequestQueued;
    }

    method InvalidateSession()
      requires Inv(Now())
      modifies this
      ensures Now() == Invalidated(old(Now())) && Inv(Now())
    {
      sessionChecked, replayPending := true, false;
      if phase == Succeeded { phase := Idle; }
    }

    /** A tick, or a keyboard, takes up the queued work. */
    method TakeUp()
      requires Inv(Now()) && Allowed(Now(), Begin)
      modifies this`phase
      ensures Now() == After(old(Now()), Begin) && Inv(Now())
    {
      phase := Running(phase.work);
    }

    method CollectCredentials(account: Keyboard, password: Keyboard, queued: bool)
      requires Inv(Now()) && phase == Running(Input)
      modifies this
      ensures Now() == RunInput(old(Now()), account, password, queued) && Inv(Now())
      ensures phase == Queued(Passport) <==>
                account.Typed? && password.Typed? && account.cipher != [] && password.cipher != []
      ensures phase == Queued(Passport) ==> login == Login(account.cipher, password.cipher, [], [])
    {
      hide Inv, Finish;
      InputKeeps(Now(), account, password, queued);
      EmptyLogin(Now());
      if !account.Typed? {
        FinishWith(if account == KeyCancel then Canceled else Failed, queued);
        return;
      }
      login := login.(account := account.cipher);
      if account.cipher == [] { FinishWith(Failed, queued); return; }
      if !password.Typed? {
        FinishWith(if password == KeyCancel then Canceled else Failed, queued);
        return;
      }
      if password.cipher == [] { FinishWith(Failed, queued); return; }
      login := login.(password := password.cipher);
      phase := Queued(Passport);
    }

    method RunPassportLogin(r: PassportAnswer, queued: bool)
      requires Inv(Now()) && phase == Running(Passport)
      modifies this
      ensures Now() == RunPassport(old(Now()), r, queued) && Inv(Now())
      ensures phase == Queued(Combo) <==> r.LoggedIn? && r.token != [] && r.uid != []
      ensures phase == Queued(Combo) ==> login == Login([], [], r.token, r.uid)
    {
      hide Inv, Finish, RunRefused;
      PassportKeeps(Now(), r, queued);
      PassportLeads(Now(), r, queued);
      if verifier.verifyRetry && verifier.header == [] { FinishWith(Failed, queued); return; }
      if verifier.aigisRetry && verifier.result == [] { FinishWith(Failed, queued); return; }
      match r {
        case PassportDown => FinishWith(Failed, queued);
        case LoggedIn(token, uid) =>
          if token == [] || uid == [] { FinishWith(Failed, queued); return; }
          login := Login([], [], token, uid);
          verifier := NO_VERIFIER;
          phase := Queued(Combo);
        case Refused(retcode, aigis, verify) => AnswerRefusal(retcode, aigis, verify, queued);
      }
    }

    /** What a refused password login leads to. */
    method AnswerRefusal(retcode: int, aigis: AigisHeader, verify: VerifyHeader, queued: bool)
      modifies this
      ensures Now() == RunRefused(old(Now()), retcode, aigis, verify, queued)
    {
      hide Challenge, Finish;
      if retcode == -3101 {
        if !ReadableAigis(aigis) { FinishWith(ChallengeRequired, queued); return; }
        verifier := NO_VERIFIER.(gt := aigis.gt, session := aigis.session, risk := aigis.risk);
        phase := Queued(Geetest);
      } else if Challenge(retcode) {
        if !ReadableVerify(verify) || verify.kind != TYPE_IDENTITY {
          FinishWith(ChallengeRequired, queued);
          return;
        }
        verifier := NO_VERIFIER.(header := verify.raw, ticket := verify.ticket);
        phase := Queued(Info);
      } else if retcode == -3208 {
        EraseAttemptSecrets();
        phase := Queued(Input);
      } else {
        FinishWith(PassportRejected, queued);
      }
    }

    method RunComboLogin(r: ComboAnswer, queued: bool)
      requires Inv(Now()) && phase == Running(Combo)
      modifies this
      ensures Now() == RunCombo(old(Now()), r, queued) && Inv(Now())
      ensures phase == Succeeded <==> r.ComboOk? && r.queued
      ensures phase == ComboRejected <==> r == ComboRefused && queued
      ensures phase in {Succeeded, ComboRejected, Failed}
    {
      hide Inv;
      ComboKeeps(Now(), r, queued);
      match r {
        case ComboDown => FinishWith(Failed, queued);
        case ComboRefused => FinishWith(ComboRejected, queued);
        case ComboOk(ok, stored) =>
          if ok {
            sent := sent + 1;
            if stored { sessionChecked, replayPending := true, false; }
          }
          EraseAttemptSecrets();
          if ok { phase := Succeeded; } else { FinishWith(Failed, queued); }
      }
    }

    method CollectGeetest(r: GeetestAnswer, queued: bool)
      requires Inv(Now()) && phase == Running(Geetest)
      modifies this
      ensures Now() == RunGeetest(old(Now()), r, queued) && Inv(Now())
    {
      hide Inv;
      GeetestKeeps(Now(), r, queued);
      if verifier.gt == [] || verifier.session == [] || verifier.risk == [] {
        FinishWith(ChallengeRequired, queued);
        return;
      }
      match r {
        case BridgeFail => FinishWith(ChallengeRequired, queued);
        case PromptCancel => FinishWith(Canceled, queued);
        case PromptFail => FinishWith(ChallengeRequired, queued);
        case NoResult => phase := Queued(Geetest);
        case Solved(result) =>
          verifier := verifier.(result := result);
          if result == [] { phase := Queued(Geetest); return; }
          verifier := verifier.(gt := [], session := [], risk := [], aigisRetry := true);
          phase := Queued(Passport);
      }
    }

    /** The loop over the chosen methods: the first one not verified yet. */
    static method FindMethod(chosen: seq<int>, partly: seq<int>) returns (found: Option<int>)
      ensures found == NextMethod(chosen, partly)
    {
      for i := 0 to |chosen|
        invariant NextMethod(chosen, partly) == NextMethod(chosen[i..], partly)
      {
        assert chosen[i..][1..] == chosen[i + 1..];
        if chosen[i] !in partly { return Some(chosen[i]); }
      }
      return None;
    }

    /** The loop over the combinations: a malformed one spoils the answer, and
        the first one the client supports in full is taken. */
    static method FindCombination(combinations: seq<Option<seq<int>>>) returns (bad: bool, first: nat)
      ensures bad <==> exists c | c in combinations :: BadCombination(c)
      ensures !bad ==> first == FirstPossible(combinations)
    {
      hide Possible;
      first := |combinations|;
      for i := 0 to |combinations|
        invariant forall j | 0 <= j < i :: !BadCombination(combinations[j])
        invariant first <= |combinations|
        invariant first == |combinations| ==> forall j | 0 <= j < i :: !Possible(combinations[j])
        invariant first < |combinations| ==> first < i && Possible(combinations[first])
        invariant first < |combinations| ==> forall j | 0 <= j < first :: !Possible(combinations[j])
      {
        if BadCombination(combinations[i]) {
          assert combinations[i] in combinations;
          return true, 0;
        }
        var supported := AllSupported(combinations[i].value);
        if supported && first == |combinations| { first := i; }
      }
      bad := false;
      assert forall c | c in combinations :: !BadCombination(c);
      FirstIs(combinations, first);
    }

    static method AllSupported(methods: seq<int>) returns (supported: bool)
      ensures supported == Possible(Some(methods))
    {
      supported := true;
      for k := 0 to |methods|
        invariant supported <==> forall j | 0 <= j < k :: Supported(methods[j])
      {
        if !Supported(methods[k]) { supported := false; }
      }
      assert forall j | 0 <= j < |methods| :: methods[j] in methods;
    }

    method QueueVerifierFactor(captchaSent: bool, queued: bool)
      modifies this
      ensures Now() == QueueFactor(old(Now()), captchaSent, queued)
    {
      verifier := verifier.(steps := verifier.steps + 1);
      if verifier.steps > MAX_STEPS { FinishWith(Failed, queued); return; }
      phase := Queued(if OneTimeCode(chosenMethod) && !captchaSent then Captcha else FactorInput);
    }

    method ProcessVerifierInfo(d: InfoData, queued: bool) returns (outcome: Outcome)
      modifies this
      ensures (Now(), outcome) == ProcessInfo(old(Now()), d, queued)
    {
      hide QueueFactor, NextMethod, Possible;
      if d.ticket == Some([]) { return Invalid; }
      if d.ticket.Some? { verifier := verifier.(ticket := d.ticket.value); }
      if !d.shaped || |d.combinations| > COMBINATION_CAPACITY { return Invalid; }
      if d.verified || d.combinations == [] {
        verifier := verifier.(verifyRetry := true);
        phase := Queued(Passport);
        return Done;
      }
      if BadList(d.chosen) || BadList(d.partly) { return Invalid; }
      if ListOf(d.chosen) != [] {
        var m := FindMethod(ListOf(d.chosen), ListOf(d.partly));
        if m.None? { return Invalid; }
        if !Supported(m.value) { return Unavailable; }
        chosenMethod := m.value;
        QueueVerifierFactor(d.captchaSent, queued);
        return Done;
      }
      outcome := SelectCombination(d, queued);
    }

    method SelectCombination(d: InfoData, queued: bool) returns (outcome: Outcome)
      modifies this
      ensures (Now(), outcome) == ProcessCombinations(old(Now()), d, queued)
    {
      hide QueueFactor, FirstPossible;
      var bad, first := FindCombination(d.combinations);
      if bad { return Invalid; }
      if first == |d.combinations| { return Unavailable; }
      var methods := d.combinations[first].value;
      assert methods != [] by {
        assert !BadCombination(d.combinations[first]) by { assert d.combinations[first] in d.combinations; }
      }
      verifier := verifier.(selected := methods);
      chosenMethod := methods[0];
      if first > 0 { phase := Queued(Method); } else { QueueVerifierFactor(d.captchaSent, queued); }
      outcome := Done;
    }

    method RunVerifierInfo(r: Answer<InfoData>, queued: bool)
      requires Inv(Now()) && phase == Running(Info)
      modifies this
      ensures Now() == RunInfo(old(Now()), r, queued) && Inv(Now())
    {
      hide Inv, ProcessInfo;
      InfoKeeps(Now(), r, queued);
      match r {
        case Down => FinishWith(Failed, queued);
        case Rejected(_) => FinishWith(PassportRejected, queued);
        case Accepted(d) =>
          var outcome := ProcessVerifierInfo(d, queued);
          if outcome == Invalid {
            FinishWith(Failed, queued);
          } else if outcome == Unavailable {
            FinishWith(VerifierUnsupported, queued);
          }
      }
    }

    method RunVerifierMethod(r: Answer<()>, queued: bool)
      requires Inv(Now()) && phase == Running(Method)
      modifies this
      ensures Now() == RunMethod(old(Now()), r, queued) && Inv(Now())
    {
      hide Inv;
      MethodKeeps(Now(), r, queued);
      if verifier.selected == [] { FinishWith(Failed, queued); return; }
      match r {
        case Down => FinishWith(Failed, queued);
        case Rejected(_) => FinishWith(PassportRejected, queued);
        case Accepted(_) => phase := Queued(Info);
      }
    }

    method RunVerifierCaptcha(r: Answer<()>, queued: bool)
      requires Inv(Now()) && phase == Running(Captcha)
      modifies this
      ensures Now() == RunCaptcha(old(Now()), r, queued) && Inv(Now())
    {
      hide Inv;
      CaptchaKeeps(Now(), r, queued);
      if chosenMethod != METHOD_EMAIL && chosenMethod != METHOD_MOBILE { FinishWith(Failed, queued); return; }
      match r {
        case Down => FinishWith(Failed, queued);
        case Rejected(_) => FinishWith(PassportRejected, queued);
        case Accepted(_) => phase := Queued(FactorInput);
      }
    }

    method CollectVerification(r: Keyboard, queued: bool)
      requires Inv(Now()) && phase == Running(FactorInput)
      modifies this
      ensures Now() == RunFactor(old(Now()), r, queued) && Inv(Now())
      ensures phase == Queued(Verify) <==>
                r.Typed? && if old(chosenMethod) == METHOD_PASSWORD then r.cipher != [] else SixDigits(r.cipher)
      ensures phase == Queued(Verify) ==> verifier.factor == r.cipher
      ensures phase == Canceled <==> r == KeyCancel && queued
    {
      hide Inv;
      FactorInputKeeps(Now(), r, queued);
      FactorLeads(Now(), r, queued);
      if !Supported(chosenMethod) { FinishWith(VerifierUnsupported, queued); return; }
      if !r.Typed? {
        FinishWith(if r == KeyCancel then Canceled else Failed, queued);
        return;
      }
      if chosenMethod == METHOD_PASSWORD {
        if r.cipher == [] { FinishWith(Failed, queued); return; }
      } else {
        var valid := AllDigits(r.cipher);
        if !valid {
          verifier := verifier.(factor := []);
          phase := Queued(FactorInput);
          return;
        }
      }
      verifier := verifier.(factor := r.cipher);
      phase := Queued(Verify);
    }

    static method AllDigits(text: bytes) returns (valid: bool)
      ensures valid == SixDigits(text)
    {
      valid := |text| == 6;
      assert forall j | 0 <= j < |text| :: text[j] in text;
      for i := 0 to |text|
        invariant valid <==> |text| == 6 && forall j | 0 <= j < i :: 48 <= text[j] <= 57
      {
        if text[i] < 48 || text[i] > 57 {
          assert text[i] in text;
          valid := false;
        }
      }
    }

    method RunVerifierVerify(r: Answer<()>, queued: bool)
      requires Inv(Now()) && phase == Running(Verify)
      modifies this
      ensures Now() == RunVerify(old(Now()), r, queued) && Inv(Now())
    {
      hide Inv;
      VerifyKeeps(Now(), r, queued);
      var lost := !Supported(chosenMethod) || verifier.factor == [];
      verifier := verifier.(factor := []);
      if lost { FinishWith(Failed, queued); return; }
      match r {
        case Down => FinishWith(Failed, queued);
        case Rejected(retcode) =>
          if retcode != -3003 && retcode != -100 {
            phase := Queued(FactorInput);
          } else {
            FinishWith(PassportRejected, queued);
          }
        case Accepted(_) => phase := Queued(Info);
      }
    }
  }
}
