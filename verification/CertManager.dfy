/** The certificate manager: Reload in two critical sections, forced renewals in a
    goroutine and the renewal loop, in any interleaving. */
module CertManager {
  import opened Collections
  import opened Strings
  import opened Domains

  /** A certificate: the names it covers and the end of its validity. */
  datatype Cert = Cert(names: set<string>, notAfter: int)

  /** Certificate files are named by a hash of the joined domain set, taken as injective. */
  datatype Path = Path(dir: string, joined: string)

  datatype Config = Config(email: string, domains: seq<string>, certDir: string)

  /** How far applyConfig gets: through, refused before it changed anything, or failed
      after it had taken over the new domains, before or after it replaced the client. */
  datatype Applied = Through | Refused | BeforeClient | AfterClient

  /** Where a Reload (or the start-up, which ends the same way) stands. */
  datatype Reload =
    | NoReload
    | Checking
    | Loading(want: seq<string>, path: Path)
    | Obtaining

  /** The goroutine of a forced renewal: it obtains, then records the error, then
      clears the flag and ends. */
  datatype Renewal = Requested | Obtained(ok: bool) | Recorded(ok: bool) | Ended(ok: bool)

  datatype Loop = Sleeping | Due

  /** A RenewStatus call: the flag it read, and how many ForceRenew calls had returned
      nil before it began; then what it returned. */
  datatype Status = Asked(inProgress: bool, forced: nat) | Answered(inProgress: bool, forced: nat, attempt: nat, ok: bool)

  /** `enabled` says whether there is a client. `renewals` holds a goroutine for every
      ForceRenew call that returned nil, in order, `renewing` is the flag they share, and
      `lastAttempt` counts up to the one whose result is in lastRenewErr (0 for none). */
  datatype State = State(
    enabled: bool,
    domains: seq<string>,
    certDir: string,
    current: Option<Cert>,
    files: map<Path, Cert>,
    reload: Reload,
    renewing: bool,
    renewals: seq<Renewal>,
    loop: Loop,
    lastAttempt: nat,
    lastOk: bool,
    statuses: seq<Status>)

  datatype Step =
    | ReloadDisable
    | ReloadApply(cfg: Config, applied: Applied)
    | ReloadCheck
    | ReloadLoad(now: int)
    | ReloadObtain(ok: bool, notAfter: int)
    | ForceRenew
    | RenewObtain(g: nat, ok: bool, notAfter: int)
    | RenewRecord(g: nat)
    | RenewClear(g: nat)
    | LoopCheck
    | LoopObtain(ok: bool, notAfter: int)
    | AskStatus
    | AnswerStatus(i: nat)

  function PathOf(dir: string, domains: seq<string>): Path { Path(dir, Join(domains, ",")) }

  function CertDir(cfg: Config): string { if cfg.certDir == "" then "/var/lib/postnest/certs" else cfg.certDir }

  predicate Covers(c: Cert, domains: seq<string>) {
    forall k :: 0 <= k < |domains| ==> domains[k] in c.names
  }

  /** obtainCertificate, which holds the lock throughout. It fails without domains. */
  function Obtain(s: State, ok: bool, notAfter: int): State {
    if s.domains == [] || !ok then s
    else
      var cert := Cert(Elements(s.domains), notAfter);
      s.(current := Some(cert), files := s.files[PathOf(s.certDir, s.domains) := cert])
  }

  /** Whether that call returns nil. */
  predicate ObtainOk(s: State, ok: bool) { s.domains != [] && ok }

  /** loadCertificate accepts a file that is not expired and covers the wanted names. */
  predicate Loadable(s: State, want: seq<string>, path: Path, now: int) {
    path in s.files && now <= s.files[path].notAfter && Covers(s.files[path], want)
  }

  /** A client exists whenever there are domains, unless applyConfig failed half way;
      without one an obtain is a nil dereference. */
  predicate CanObtain(s: State) { s.domains != [] ==> s.enabled }

  ghost predicate Enabled(s: State, t: Step) {
    match t
    case ReloadDisable => s.reload.NoReload?
    case ReloadApply(cfg, _) => s.reload.NoReload? && cfg.email != ""
    case ReloadCheck => s.reload.Checking?
    case ReloadLoad(_) => s.reload.Loading?
    case ReloadObtain(_, _) => s.reload.Obtaining? && CanObtain(s)
    case ForceRenew => true
    case RenewObtain(g, _, _) => g < |s.renewals| && s.renewals[g].Requested? && CanObtain(s)
    case RenewRecord(g) => g < |s.renewals| && s.renewals[g].Obtained?
    case RenewClear(g) => g < |s.renewals| && s.renewals[g].Recorded?
    case LoopCheck => s.loop.Sleeping? && s.enabled && s.domains != []
    case LoopObtain(_, _) => s.loop.Due? && CanObtain(s)
    case AskStatus => true
    case AnswerStatus(i) => i < |s.statuses| && s.statuses[i].Asked?
  }

  function Move(s: State, g: nat, r: Renewal): State
    requires g < |s.renewals|
  {
    s.(renewals := s.renewals[g := r])
  }

  function Apply(s: State, t: Step): State {
    match t
    case ReloadDisable => s.(enabled := false, domains := [], current := None)
    case ReloadApply(cfg, applied) =>
      var domains := Canonical(cfg.domains);
      if applied.Refused? then s
      else if applied.BeforeClient? then s.(domains := domains, certDir := CertDir(cfg))
      else if applied.AfterClient? then s.(enabled := true, domains := domains, certDir := CertDir(cfg))
      else
        s.(enabled := true, domains := domains, certDir := CertDir(cfg),
           reload := if Join(s.domains, ",") != Join(domains, ",") then Obtaining else Checking)
    case ReloadCheck =>
      s.(reload := if s.current.None? && s.domains != [] then Loading(s.domains, PathOf(s.certDir, s.domains)) else NoReload)
    case ReloadLoad(now) =>
      if !s.reload.Loading? then s
      else if Loadable(s, s.reload.want, s.reload.path, now) then s.(current := Some(s.files[s.reload.path]), reload := NoReload)
      else s.(reload := Obtaining)
    case ReloadObtain(ok, notAfter) => Obtain(s, ok, notAfter).(reload := NoReload)
    case ForceRenew => if s.renewing then s else s.(renewing := true, renewals := s.renewals + [Requested])
    case RenewObtain(g, ok, notAfter) =>
      if g < |s.renewals| then Move(Obtain(s, ok, notAfter), g, Obtained(ObtainOk(s, ok))) else s
    case RenewRecord(g) =>
      if g < |s.renewals| && s.renewals[g].Obtained? then
        Move(s, g, Recorded(s.renewals[g].ok)).(lastAttempt := g + 1, lastOk := s.renewals[g].ok)
      else s
    case RenewClear(g) =>
      if g < |s.renewals| && s.renewals[g].Recorded? then
        Move(s, g, Ended(s.renewals[g].ok)).(renewing := false)
      else s
    case LoopCheck => s.(loop := Due)
    case LoopObtain(ok, notAfter) => Obtain(s, ok, notAfter).(loop := Sleeping)
    case AskStatus => s.(statuses := s.statuses + [Asked(s.renewing, |s.renewals|)])
    case AnswerStatus(i) =>
      if i < |s.statuses| then
        s.(statuses := s.statuses[i := Answered(s.statuses[i].inProgress, s.statuses[i].forced, s.lastAttempt, s.lastOk)])
      else s
  }

  ghost predicate IsRun(s: State, ts: seq<Step>)
    decreases |ts|
  {
    ts == [] || (Enabled(s, ts[0]) && IsRun(Apply(s, ts[0]), ts[1..]))
  }

  function Final(s: State, ts: seq<Step>): State
    decreases |ts|
  {
    if ts == [] then s else Final(Apply(s, ts[0]), ts[1..])
  }

  /** A manager as NewManager leaves it, with whatever files there are: disabled, or
      configured and about to load its certificate as Start does. */
  function Init(cfg: Config, files: map<Path, Cert>): State {
    var domains := if cfg.email == "" then [] else Canonical(cfg.domains);
    State(cfg.email != "", domains, CertDir(cfg), None, files,
          if domains == [] then NoReload else Checking, false, [], Sleeping, 0, true, [])
  }

  // ---------------------------------------------------------------------------
  // The current certificate covers the configured domains

  predicate NoCommas(domains: seq<string>) {
    forall k :: 0 <= k < |domains| ==> ',' !in domains[k]
  }

  /** No configuration on the way has a comma in a name. */
  ghost predicate CommaFreeSteps(ts: seq<Step>) {
    forall k :: 0 <= k < |ts| && ts[k].ReloadApply? ==> NoCommas(ts[k].cfg.domains)
  }

  /** With no Reload between its critical sections, the current certificate, if there is
      one, covers every configured domain; a manager without a client has none. */
  ghost predicate Covered(s: State) {
    && (s.reload.NoReload? && s.current.Some? ==> Covers(s.current.value, s.domains))
    && (!s.enabled ==> s.current.None?)
  }

  /** The inductive form: during a Reload, only one that is about to obtain may have a
      certificate that does not cover the new domains. */
  ghost predicate CoveredInv(s: State) {
    && CommaFree(s.domains)
    && (!s.enabled ==> s.current.None? && s.reload.NoReload?)
    && (!s.reload.Obtaining? && s.current.Some? ==> Covers(s.current.value, s.domains))
    && (s.reload.Loading? ==> s.reload.want == s.domains)
  }

  predicate Covering(current: Option<Cert>, domains: seq<string>) {
    current.None? || Covers(current.value, domains)
  }

  /** What a step must not do: end a Reload by a failed obtain, or half-way, beside a
      certificate that does not cover the new domains. A failed renewal does no harm. */
  predicate Harmless(s: State, t: Step) {
    match t
    case ReloadObtain(ok, _) => ok || Covering(s.current, s.domains)
    case ReloadApply(cfg, applied) =>
      applied.BeforeClient? || applied.AfterClient? ==> Covering(s.current, Canonical(cfg.domains))
    case _ => true
  }

  lemma ObtainCovers(s: State, ok: bool, notAfter: int)
    ensures var s' := Obtain(s, ok, notAfter);
      && (ok && s.domains != [] ==> s'.current.Some? && Covers(s'.current.value, s.domains))
      && (!ok || s.domains == [] ==> s' == s)
      && (Covering(s.current, s.domains) ==> Covering(s'.current, s.domains))
  {
  }

  lemma ApplyCovered(s: State, cfg: Config, applied: Applied)
    requires CoveredInv(s) && Enabled(s, ReloadApply(cfg, applied)) && NoCommas(cfg.domains)
    ensures var t := ReloadApply(cfg, applied);
      && (Harmless(s, t) ==> CoveredInv(Apply(s, t)))
      && (!Harmless(s, t) ==> !Covered(Apply(s, t)))
  {
    CanonicalCommaFree(cfg.domains);
    if Join(s.domains, ",") == Join(Canonical(cfg.domains), ",") {
      JoinInjective(s.domains, Canonical(cfg.domains));
    }
  }

  lemma ObtainCovered(s: State, t: Step)
    requires CoveredInv(s) && Enabled(s, t) && (t.ReloadObtain? || t.RenewObtain? || t.LoopObtain?)
    ensures Harmless(s, t) ==> CoveredInv(Apply(s, t))
    ensures !Harmless(s, t) ==> !Covered(Apply(s, t))
  {
    ObtainCovers(s, t.ok, t.notAfter);
  }

  /** A step from a covered state leads to one exactly when it is harmless. */
  lemma CoveredStep(s: State, t: Step)
    requires CoveredInv(s) && Enabled(s, t) && (t.ReloadApply? ==> NoCommas(t.cfg.domains))
    ensures CoveredInv(Apply(s, t)) <==> Harmless(s, t)
    ensures Covered(Apply(s, t)) <==> Harmless(s, t)
  {
    match t
    case ReloadApply(cfg, applied) => ApplyCovered(s, cfg, applied);
    case ReloadObtain(_, _) => ObtainCovered(s, t);
    case RenewObtain(_, _, _) => ObtainCovered(s, t);
    case LoopObtain(_, _) => ObtainCovered(s, t);
    case _ =>
  }

  /** Every step of a run is harmless where it is taken. */
  predicate HarmlessRun(s: State, ts: seq<Step>)
    decreases |ts|
  {
    ts == [] || (Harmless(s, ts[0]) && HarmlessRun(Apply(s, ts[0]), ts[1..]))
  }

  /** Every state of a run is covered. */
  ghost predicate AlwaysCovered(s: State, ts: seq<Step>)
    decreases |ts|
  {
    Covered(s) && (ts == [] || AlwaysCovered(Apply(s, ts[0]), ts[1..]))
  }

  lemma {:induction false} CoveredRun(s: State, ts: seq<Step>)
    requires CoveredInv(s) && IsRun(s, ts) && CommaFreeSteps(ts)
    ensures AlwaysCovered(s, ts) <==> HarmlessRun(s, ts)
    ensures HarmlessRun(s, ts) ==> CoveredInv(Final(s, ts))
    decreases |ts|
  {
    if ts != [] {
      assert forall k :: 0 <= k < |ts[1..]| ==> ts[1..][k] == ts[k + 1];
      CoveredStep(s, ts[0]);
      if Harmless(s, ts[0]) {
        CoveredRun(Apply(s, ts[0]), ts[1..]);
      } else if ts[1..] != [] {
        assert !Covered(Apply(s, ts[0]));
      }
    }
  }

  /** In a run with Reloads one at a time, interleaved with forced renewals and the loop,
      every state is covered exactly when every step is harmless. */
  lemma CoveredExactly(cfg: Config, files: map<Path, Cert>, ts: seq<Step>)
    requires NoCommas(cfg.domains) && IsRun(Init(cfg, files), ts) && CommaFreeSteps(ts)
    ensures AlwaysCovered(Init(cfg, files), ts) <==> HarmlessRun(Init(cfg, files), ts)
  {
    CanonicalCommaFree(cfg.domains);
    CoveredRun(Init(cfg, files), ts);
  }

  /** In particular its last state. */
  lemma CurrentCoversDomains(cfg: Config, files: map<Path, Cert>, ts: seq<Step>)
    requires NoCommas(cfg.domains) && IsRun(Init(cfg, files), ts) && CommaFreeSteps(ts)
    requires HarmlessRun(Init(cfg, files), ts)
    ensures Covered(Final(Init(cfg, files), ts))
  {
    CanonicalCommaFree(cfg.domains);
    CoveredRun(Init(cfg, files), ts);
  }

  /** A start without files that obtains its first certificate. */
  lemma FirstObtain(cfg: Config, now: int, notAfter: int)
    requires cfg.email != "" && Canonical(cfg.domains) != []
    ensures
      var ts := [ReloadCheck] + ([ReloadLoad(now)] + [ReloadObtain(true, notAfter)]);
      && IsRun(Init(cfg, map[]), ts)
      && var s := Final(Init(cfg, map[]), ts);
         && s.enabled && s.reload.NoReload? && s.domains == Canonical(cfg.domains)
         && s.current == Some(Cert(Elements(Canonical(cfg.domains)), notAfter))
  {
    var s0 := Init(cfg, map[]);
    var s1 := s0.(reload := Loading(s0.domains, PathOf(s0.certDir, s0.domains)));
    var s2 := s0.(reload := Obtaining);
    assert s1 == Apply(s0, ReloadCheck) && s2 == Apply(s1, ReloadLoad(now));
    RunOne(s2, ReloadObtain(true, notAfter));
    RunMore(s1, ReloadLoad(now), [ReloadObtain(true, notAfter)]);
    RunMore(s0, ReloadCheck, [ReloadLoad(now)] + [ReloadObtain(true, notAfter)]);
  }

  lemma ChangedApply(s: State, cfg: Config)
    requires Join(Canonical(cfg.domains), ",") != Join(s.domains, ",")
    ensures Apply(s, ReloadApply(cfg, Through))
         == s.(enabled := true, domains := Canonical(cfg.domains), certDir := CertDir(cfg), reload := Obtaining)
  {
  }

  /** A failed obtain ends a Reload with the old certificate. */
  lemma ThenFailedObtain(s: State, t: Step, s1: State, notAfter: int)
    requires Enabled(s, t) && s1 == Apply(s, t) && s1.reload.Obtaining? && CanObtain(s1)
    ensures IsRun(s, [t] + [ReloadObtain(false, notAfter)])
    ensures Final(s, [t] + [ReloadObtain(false, notAfter)]) == s1.(reload := NoReload)
  {
    RunOne(s1, ReloadObtain(false, notAfter));
    RunMore(s, t, [ReloadObtain(false, notAfter)]);
  }

  /** The failing input: a start that obtains its certificate, then a Reload that changes
      the names and fails to obtain. The last state is covered only if all new names are
      old ones. */
  lemma FailedObtainUncovers(before: Config, after: Config, now: int, notAfter: int)
    requires before.email != "" && after.email != "" && Canonical(before.domains) != []
    requires NoCommas(before.domains) && NoCommas(after.domains) && Names(before.domains) != Names(after.domains)
    ensures
      var ts := [ReloadCheck] + ([ReloadLoad(now)] + [ReloadObtain(true, notAfter)])
                + ([ReloadApply(after, Through)] + [ReloadObtain(false, notAfter)]);
      && IsRun(Init(before, map[]), ts)
      && (Covered(Final(Init(before, map[]), ts)) <==> Names(after.domains) <= Names(before.domains))
  {
    var start := [ReloadCheck] + ([ReloadLoad(now)] + [ReloadObtain(true, notAfter)]);
    FirstObtain(before, now, notAfter);
    ReissueIffNamesChanged(before.domains, after.domains);
    var s := Final(Init(before, map[]), start);
    ChangedApply(s, after);
    ThenFailedObtain(s, ReloadApply(after, Through), Apply(s, ReloadApply(after, Through)), notAfter);
    RunAppend(Init(before, map[]), start, [ReloadApply(after, Through)] + [ReloadObtain(false, notAfter)]);
    OldCertificateCovers(before.domains, after.domains, notAfter);
  }

  lemma {:induction false} RunAppend(s: State, a: seq<Step>, b: seq<Step>)
    requires IsRun(s, a) && IsRun(Final(s, a), b)
    ensures IsRun(s, a + b) && Final(s, a + b) == Final(Final(s, a), b)
    decreases |a|
  {
    if a == [] {
      assert a + b == b;
    } else {
      assert (a + b)[1..] == a[1..] + b;
      RunAppend(Apply(s, a[0]), a[1..], b);
    }
  }

  lemma OldCertificateCovers(before: seq<string>, after: seq<string>, notAfter: int)
    ensures Covers(Cert(Elements(Canonical(before)), notAfter), Canonical(after)) <==> Names(after) <= Names(before)
  {
    CanonicalMeaning(before);
    CanonicalMeaning(after);
    var cert := Cert(Elements(Canonical(before)), notAfter);
    if Covers(cert, Canonical(after)) {
      forall x | x in Names(after)
        ensures x in Names(before)
      {
        assert x in Canonical(after);
      }
    }
  }

  lemma RunOne(s: State, a: Step)
    requires Enabled(s, a)
    ensures IsRun(s, [a]) && Final(s, [a]) == Apply(s, a)
  {
    assert [a][1..] == [];
  }

  lemma RunMore(s: State, a: Step, rest: seq<Step>)
    requires Enabled(s, a) && IsRun(Apply(s, a), rest)
    ensures IsRun(s, [a] + rest) && Final(s, [a] + rest) == Final(Apply(s, a), rest)
  {
    assert ([a] + rest)[1..] == rest;
  }

  // ---------------------------------------------------------------------------
  // Forced renewals

  predicate Unfinished(r: Renewal) { !r.Ended? }

  /** The result of the `n`-th attempt, which counts as a success before there is any. */
  ghost predicate HasResult(renewals: seq<Renewal>, n: nat, ok: bool) {
    n <= |renewals| && if n == 0 then ok else !renewals[n - 1].Requested? && renewals[n - 1].ok == ok
  }

  ghost predicate StatusOk(s: State, x: Status) {
    && x.forced <= |s.renewals|
    && match x
       case Asked(inProgress, forced) => !inProgress ==> forced <= s.lastAttempt
       case Answered(inProgress, forced, attempt, ok) =>
         (!inProgress ==> forced <= attempt) && attempt <= s.lastAttempt && HasResult(s.renewals, attempt, ok)
  }

  /** Only the last goroutine can be unfinished, exactly while the flag is set; and the
      last recorded result is its own, or that of the one before it until it records. */
  ghost predicate RenewInv(s: State) {
    var n := |s.renewals|;
    && (forall g :: 0 <= g < n - 1 ==> s.renewals[g].Ended?)
    && (s.renewing <==> n > 0 && Unfinished(s.renewals[n - 1]))
    && s.lastAttempt == (if n > 0 && (s.renewals[n - 1].Requested? || s.renewals[n - 1].Obtained?) then n - 1 else n)
    && HasResult(s.renewals, s.lastAttempt, s.lastOk)
    && forall i :: 0 <= i < |s.statuses| ==> StatusOk(s, s.statuses[i])
  }

  /** Results, once there, stay. */
  ghost predicate Extends(a: seq<Renewal>, b: seq<Renewal>) {
    |a| <= |b| && forall g :: 0 <= g < |a| && !a[g].Requested? ==> !b[g].Requested? && b[g].ok == a[g].ok
  }

  lemma StatusKept(s: State, s': State)
    requires forall i :: 0 <= i < |s.statuses| ==> StatusOk(s, s.statuses[i])
    requires Extends(s.renewals, s'.renewals) && s.lastAttempt <= s'.lastAttempt
    ensures forall i :: 0 <= i < |s.statuses| ==> StatusOk(s', s.statuses[i])
  {
    forall i | 0 <= i < |s.statuses|
      ensures StatusOk(s', s.statuses[i])
    {
      assert StatusOk(s, s.statuses[i]);
    }
  }

  lemma RenewFrame(s: State, s': State)
    requires RenewInv(s)
    requires s'.renewing == s.renewing && s'.renewals == s.renewals && s'.lastAttempt == s.lastAttempt
    requires s'.lastOk == s.lastOk && s'.statuses == s.statuses
    ensures RenewInv(s')
  {
    StatusKept(s, s');
  }

  lemma RenewForced(s: State)
    requires RenewInv(s)
    ensures RenewInv(Apply(s, ForceRenew))
  {
    StatusKept(s, Apply(s, ForceRenew));
  }

  lemma RenewMoves(s: State, t: Step)
    requires RenewInv(s) && Enabled(s, t)
    requires t.RenewObtain? || t.RenewRecord? || t.RenewClear?
    ensures RenewInv(Apply(s, t))
  {
    assert t.g == |s.renewals| - 1;
    StatusKept(s, Apply(s, t));
  }

  lemma RenewAsked(s: State, t: Step)
    requires RenewInv(s) && Enabled(s, t) && (t.AskStatus? || t.AnswerStatus?)
    ensures RenewInv(Apply(s, t))
  {
    StatusKept(s, Apply(s, t));
    if t.AnswerStatus? {
      assert StatusOk(s, s.statuses[t.i]);
    }
  }

  lemma RenewStep(s: State, t: Step)
    requires RenewInv(s) && Enabled(s, t)
    ensures RenewInv(Apply(s, t))
  {
    match t
    case AskStatus => RenewAsked(s, t);
    case AnswerStatus(_) => RenewAsked(s, t);
    case ForceRenew => RenewForced(s);
    case RenewRecord(_) => RenewMoves(s, t);
    case RenewClear(_) => RenewMoves(s, t);
    case RenewObtain(_, _, _) => RenewMoves(s, t);
    case _ => RenewFrame(s, Apply(s, t));
  }

  lemma {:induction false} RenewRun(s: State, ts: seq<Step>)
    requires RenewInv(s) && IsRun(s, ts)
    ensures RenewInv(Final(s, ts))
    decreases |ts|
  {
    if ts != [] {
      RenewStep(s, ts[0]);
      RenewRun(Apply(s, ts[0]), ts[1..]);
    }
  }

  /** In every reachable state ForceRenew is accepted, and starts a goroutine, exactly when
      none is unfinished; and a RenewStatus begun then sees that there is one. */
  lemma ForceRenewExactly(cfg: Config, files: map<Path, Cert>, ts: seq<Step>)
    requires IsRun(Init(cfg, files), ts)
    ensures var s := Final(Init(cfg, files), ts);
      var busy := exists g :: 0 <= g < |s.renewals| && Unfinished(s.renewals[g]);
      && Apply(s, ForceRenew).renewals == (if busy then s.renewals else s.renewals + [Requested])
      && Apply(s, AskStatus).statuses == s.statuses + [Asked(busy, |s.renewals|)]
  {
    AtMostOneRenewal(cfg, files, ts);
  }

  /** In every interleaving at most one goroutine of a forced renewal is unfinished, and
      one is exactly while the flag is set. */
  lemma AtMostOneRenewal(cfg: Config, files: map<Path, Cert>, ts: seq<Step>)
    requires IsRun(Init(cfg, files), ts)
    ensures var s := Final(Init(cfg, files), ts);
      && (forall g, h :: 0 <= g < |s.renewals| && 0 <= h < |s.renewals|
            && Unfinished(s.renewals[g]) && Unfinished(s.renewals[h])
            ==> g == h)
      && (s.renewing <==> exists g :: 0 <= g < |s.renewals| && Unfinished(s.renewals[g]))
  {
    RenewRun(Init(cfg, files), ts);
  }

  /** A RenewStatus that reports no renewal in progress returns the result of the last
      attempt requested before it was called, or of a later one. */
  lemma StatusReportsTheLastAttempt(cfg: Config, files: map<Path, Cert>, ts: seq<Step>, i: nat)
    requires IsRun(Init(cfg, files), ts)
    requires i < |Final(Init(cfg, files), ts).statuses| && Final(Init(cfg, files), ts).statuses[i].Answered?
    ensures var s := Final(Init(cfg, files), ts);
      var x := s.statuses[i];
      (!x.inProgress ==> x.forced <= x.attempt) && HasResult(s.renewals, x.attempt, x.ok)
  {
    RenewRun(Init(cfg, files), ts);
    var s := Final(Init(cfg, files), ts);
    assert StatusOk(s, s.statuses[i]);
  }

  // ---------------------------------------------------------------------------
  // The manager, with no other call interleaved

  class Manager {
    var enabled: bool
    var domains: seq<string>
    var certDir: string
    var current: Option<Cert>
    var files: map<Path, Cert>

    /** The manager as a state in which nothing is under way. */
    ghost function Abstract(): State
      reads this
    {
      State(enabled, domains, certDir, current, files, NoReload, false, [], Sleeping, 0, true, [])
    }

    constructor (cfg: Config, files: map<Path, Cert>)
      ensures Abstract() == Init(cfg, files).(reload := NoReload)
    {
      this.enabled := cfg.email != "";
      this.domains := if cfg.email == "" then [] else Canonical(cfg.domains);
      this.certDir := CertDir(cfg);
      this.current := None;
      this.files := files;
    }

    method ObtainCertificate(acmeOk: bool, notAfter: int) returns (ok: bool)
      requires CanObtain(Abstract())
      modifies this`current, this`files
      ensures Abstract() == Obtain(old(Abstract()), acmeOk, notAfter)
      ensures ok <==> domains != [] && acmeOk
      ensures var cert := Cert(Elements(domains), notAfter);
        && current == (if ok then Some(cert) else old(current))
        && files == (if ok then old(files)[Path(certDir, Join(domains, ",")) := cert] else old(files))
    {
      if |domains| == 0 || !acmeOk {
        return false;
      }
      var cert := Cert(Elements(domains), notAfter);
      files := files[PathOf(certDir, domains) := cert];
      current := Some(cert);
      return true;
    }

    method LoadCertificate(now: int) returns (ok: bool)
      modifies this`current
      ensures ok <==> Loadable(old(Abstract()), domains, PathOf(certDir, domains), now)
      ensures var path := Path(certDir, Join(domains, ","));
        && (ok <==> path in files && now <= files[path].notAfter
                    && forall k :: 0 <= k < |domains| ==> domains[k] in files[path].names)
        && current == (if ok then Some(files[path]) else old(current))
    {
      var path := PathOf(certDir, domains);
      if path !in files || now > files[path].notAfter {
        return false;
      }
      var i := 0;
      while i < |domains|
        invariant 0 <= i <= |domains|
        invariant forall k :: 0 <= k < i ==> domains[k] in files[path].names
      {
        if domains[i] !in files[path].names {
          return false;
        }
        i := i + 1;
      }
      current := Some(files[path]);
      return true;
    }

    /** The steps of a Reload after its first critical section. */
    ghost function TailSteps(s: State, now: int, acmeOk: bool, notAfter: int): seq<Step> {
      if s.reload.Obtaining? then [ReloadObtain(acmeOk, notAfter)]
      else if s.current.Some? || s.domains == [] then [ReloadCheck]
      else if Loadable(s, s.domains, PathOf(s.certDir, s.domains), now) then [ReloadCheck] + [ReloadLoad(now)]
      else [ReloadCheck] + ([ReloadLoad(now)] + [ReloadObtain(acmeOk, notAfter)])
    }

    /** Whether those steps end without an error: removing the last domain does not. */
    ghost predicate TailOk(s: State, now: int, acmeOk: bool) {
      if s.reload.Obtaining? then ObtainOk(s, acmeOk)
      else
        || s.current.Some? || s.domains == []
        || Loadable(s, s.domains, PathOf(s.certDir, s.domains), now) || ObtainOk(s, acmeOk)
    }

    /** The certificate is one that was on file, names every domain and had not expired, or the
        one just obtained. */
    ghost predicate InService(files: map<Path, Cert>, domains: seq<string>, current: Option<Cert>,
                              now: int, acmeOk: bool, notAfter: int) {
      && current.Some?
      && (forall k :: 0 <= k < |domains| ==> domains[k] in current.value.names)
      && ((current.value in files.Values && now <= current.value.notAfter)
          || (acmeOk && current.value == Cert(Elements(domains), notAfter)))
    }

    /** What a Reload does after its first critical section. */
    method Settle(changed: bool, now: int, acmeOk: bool, notAfter: int) returns (ok: bool)
      requires enabled
      modifies this`current, this`files
      ensures
        var s := old(Abstract()).(reload := if changed then Obtaining else Checking);
        && IsRun(s, TailSteps(s, now, acmeOk, notAfter))
        && Abstract() == Final(s, TailSteps(s, now, acmeOk, notAfter))
        && (ok <==> TailOk(s, now, acmeOk))
      ensures ok && changed ==> current == Some(Cert(Elements(domains), notAfter)) && acmeOk
      ensures ok && !changed && old(current).None? && domains != [] ==>
        InService(old(files), domains, current, now, acmeOk, notAfter)
    {
      ghost var s := Abstract().(reload := if changed then Obtaining else Checking);
      if changed {
        RunOne(s, ReloadObtain(acmeOk, notAfter));
        ok := ObtainCertificate(acmeOk, notAfter);
      } else if current.None? && |domains| > 0 {
        ghost var s1 := Apply(s, ReloadCheck);
        ghost var s2 := Apply(s1, ReloadLoad(now));
        RunOne(s1, ReloadLoad(now));
        ok := LoadCertificate(now);
        if ok {
          RunMore(s, ReloadCheck, [ReloadLoad(now)]);
          return;
        }
        RunOne(s2, ReloadObtain(acmeOk, notAfter));
        RunMore(s1, ReloadLoad(now), [ReloadObtain(acmeOk, notAfter)]);
        RunMore(s, ReloadCheck, [ReloadLoad(now)] + [ReloadObtain(acmeOk, notAfter)]);
        ok := ObtainCertificate(acmeOk, notAfter);
      } else {
        RunOne(s, ReloadCheck);
        ok := true;
      }
    }

    /** The first critical section. */
    method ApplyConfig(cfg: Config, applied: Applied) returns (changed: bool)
      requires cfg.email != ""
      modifies this`enabled, this`domains, this`certDir
      ensures applied.Refused? ==> !changed && enabled == old(enabled) && domains == old(domains) && certDir == old(certDir)
      ensures !applied.Refused? ==>
        && domains == Canonical(cfg.domains) && enabled == (old(enabled) || !applied.BeforeClient?)
        && certDir == if cfg.certDir == "" then "/var/lib/postnest/certs" else cfg.certDir
      ensures var s := Apply(old(Abstract()), ReloadApply(cfg, applied));
        && Abstract() == s.(reload := NoReload)
        && (changed <==> s.reload.Obtaining?)
      ensures CommaFree(old(domains)) && NoCommas(cfg.domains) && applied.Through? ==>
        (changed <==> old(domains) != Canonical(cfg.domains))
    {
      var oldDomains := Join(domains, ",");
      UnchangedExactly(domains, cfg.domains);
      if applied.Refused? {
        return false;
      }
      domains := Canonical(cfg.domains);
      certDir := CertDir(cfg);
      if applied.BeforeClient? {
        return false;
      }
      enabled := true;
      if applied.AfterClient? {
        return false;
      }
      changed := oldDomains != Join(domains, ",");
    }

    /** Reload as a whole, for any configuration and any way applyConfig, the file
        and ACME may turn out. */
    method Reload(cfg: Config, applied: Applied, now: int, acmeOk: bool, notAfter: int) returns (ok: bool)
      modifies this
      ensures
        var s := old(Abstract());
        if cfg.email == "" then
          ok && Abstract() == Apply(s, ReloadDisable)
        else if !applied.Through? then
          !ok && Abstract() == Apply(s, ReloadApply(cfg, applied))
        else
          var s1 := Apply(s, ReloadApply(cfg, applied));
          && IsRun(s1, TailSteps(s1, now, acmeOk, notAfter))
          && Abstract() == Final(s1, TailSteps(s1, now, acmeOk, notAfter))
          && (ok <==> TailOk(s1, now, acmeOk))
      ensures cfg.email == "" ==> !enabled && domains == [] && current.None?
      ensures ok && cfg.email != "" ==> domains == Canonical(cfg.domains)
      ensures ok && cfg.email != "" && old(current).None? && domains != [] ==>
        InService(old(files), domains, current, now, acmeOk, notAfter)
    {
      if cfg.email == "" {
        enabled, domains, current := false, [], None;
        return true;
      }
      var changed := ApplyConfig(cfg, applied);
      if !applied.Through? {
        return false;
      }
      ok := Settle(changed, now, acmeOk, notAfter);
    }
  }

  /** Different sets of names without commas are kept in different files. */
  lemma PathsDiffer(dir: string, a: seq<string>, b: seq<string>)
    requires CommaFree(a) && CommaFree(b)
    ensures PathOf(dir, a) == PathOf(dir, b) <==> a == b
  {
    if PathOf(dir, a) == PathOf(dir, b) {
      JoinInjective(a, b);
    }
  }

  /** A Reload that finds no current certificate serves the one on file exactly when it is
      there, has not expired and names every wanted domain; otherwise it goes on to obtain. */
  lemma LoadExactly(s: State, now: int)
    requires s.reload.Loading?
    ensures var path, want := s.reload.path, s.reload.want;
      Apply(s, ReloadLoad(now)) ==
        if path in s.files && now <= s.files[path].notAfter
           && forall k :: 0 <= k < |want| ==> want[k] in s.files[path].names
        then s.(current := Some(s.files[path]), reload := NoReload)
        else s.(reload := Obtaining)
  {
  }

  /** The joined strings agree exactly when the canonical lists do. */
  lemma UnchangedExactly(was: seq<string>, domains: seq<string>)
    ensures CommaFree(was) && NoCommas(domains) ==>
      (Join(was, ",") == Join(Canonical(domains), ",") <==> was == Canonical(domains))
  {
    if CommaFree(was) && NoCommas(domains) && Join(was, ",") == Join(Canonical(domains), ",") {
      CanonicalCommaFree(domains);
      JoinInjective(was, Canonical(domains));
    }
  }

  /** Between two enabled configurations without commas, the join test detects a
      change exactly when the sets of names differ. */
  lemma ReissueIffNamesChanged(before: seq<string>, after: seq<string>)
    requires NoCommas(before) && NoCommas(after)
    ensures Join(Canonical(before), ",") != Join(Canonical(after), ",") <==> Names(before) != Names(after)
  {
    CanonicalCommaFree(before);
    UnchangedExactly(Canonical(before), after);
    CanonicalIffSameNames(before, after);
  }
}
