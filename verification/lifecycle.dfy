/** The provisioning and deprovisioning sequences as traces of effects.

    Each collaborator call (compute, DNS, notifier, exporter) is recorded in
    the trace together with its arguments; its success or failure is an input
    (an outcome). Store writes are recorded too, and `Replay` gives their
    effect on the table. A failed best-effort step leaves only a
    `LogFailure` entry. The lemmas state the ordering and failure policy over
    these traces. */
module Lifecycle {
  import opened CustomerStore

  /** The collaborator steps, used to say which one failed. */
  datatype Step = Launch | Wait | Script | DnsCreate | WelcomeEmail | Export | Terminate | DnsDelete

  datatype Effect =
    | UpdateEC2(id: int, instanceId: string, publicIp: string)   // store.UpdateEC2
    | UpdateStatus(id: int, status: Status)                       // store.UpdateStatus
    | LaunchCall(slug: string)
    | WaitCall(instanceId: string)
    | ScriptCall(instanceId: string, slug: string, password: string, dbPassword: string)
    | DnsCreateCall(slug: string, ip: string)
    | WelcomeCall(email: string, slug: string, password: string)
    | ExportCall(instanceId: string, slug: string)
    | ExportEmailCall(email: string, url: string)
    | TerminateCall(instanceId: string)
    | DnsDeleteCall(slug: string, ip: string)
    | LogFailure(step: Step)

  /** What the compute provider's launch returns: an error, or the new
      machine's id and address. */
  datatype LaunchOutcome = LaunchFailed | Launched(instanceId: string, publicIp: string)

  /** The outcome of every collaborator call of one provisioning run. */
  datatype ProvisionOutcomes = ProvisionOutcomes(
    launch: LaunchOutcome,
    waitOk: bool,
    scriptOk: bool,
    dnsOk: bool,
    emailOk: bool)

  /** What the exporter returns: an error, or the download URL. */
  datatype ExportOutcome = ExportFailed | Exported(url: string)

  /** The outcome of every collaborator call of one deprovisioning run. */
  datatype DeprovisionOutcomes = DeprovisionOutcomes(
    exportResult: ExportOutcome,
    terminateOk: bool,
    dnsOk: bool)

  /** A failed launch, wait or script ends the run. */
  predicate FatalFailure(o: ProvisionOutcomes) {
    o.launch.LaunchFailed? || !o.waitOk || !o.scriptOk
  }

  /** A best-effort step: nothing on success, a log line on failure. */
  function Logged(ok: bool, step: Step): (t: seq<Effect>)
    ensures ok <==> t == []
    ensures !ok ==> t == [LogFailure(step)]
  {
    if ok then [] else [LogFailure(step)]
  }

  // ---------------------------------------------------------------------------
  // The traces

  /** A successful launch: the launch call, the machine write, the wait call.
      Its only store write puts the new machine on the record. */
  function Started(c: Customer, iid: string, ip: string): (t: seq<Effect>)
    ensures |t| == 3 && t[0] == LaunchCall(c.slug) && t[2] == WaitCall(iid)
    ensures forall e | e in t && (e.UpdateEC2? || e.UpdateStatus?) :: e == UpdateEC2(c.id, iid, ip)
  {
    [LaunchCall(c.slug)] + [UpdateEC2(c.id, iid, ip)] + [WaitCall(iid)]
  }

  /** A fatal failure at `step`: the log line, then `failed` is written, and
      that is its only store write. */
  function Fail(c: Customer, step: Step): (t: seq<Effect>)
    ensures |t| == 2 && t[0] == LogFailure(step) && t[1] == UpdateStatus(c.id, Failed)
    ensures forall e | e in t && (e.UpdateEC2? || e.UpdateStatus?) :: e == UpdateStatus(c.id, Failed)
  {
    [LogFailure(step), UpdateStatus(c.id, Failed)]
  }

  /** Steps 4 and 5, both best effort: the DNS record and the welcome email.
      The DNS call comes first and nothing is written to the table; apart
      from log lines the two calls are all there is (`AnnounceObservable`). */
  function Announce(c: Customer, ip: string, password: string, dnsOk: bool, emailOk: bool): (t: seq<Effect>)
    ensures t != [] && t[0] == DnsCreateCall(c.slug, ip)
    ensures Inert(t)
  {
    [DnsCreateCall(c.slug, ip)] + Logged(dnsOk, DnsCreate)
    + [WelcomeCall(c.email, c.slug, password)] + Logged(emailOk, WelcomeEmail)
  }

  /** The effects of `provision` for record `c`, in order. The run always
      starts with the launch call, and every store write is to `c`'s row. */
  function ProvisionTrace(c: Customer, password: string, dbPassword: string, o: ProvisionOutcomes): (t: seq<Effect>)
    ensures t != [] && t[0] == LaunchCall(c.slug)
    ensures forall e | e in t && (e.UpdateEC2? || e.UpdateStatus?) :: e.id == c.id
  {
    match o.launch
    case LaunchFailed =>
      [LaunchCall(c.slug)] + Fail(c, Launch)
    case Launched(iid, ip) =>
      if !o.waitOk then
        Started(c, iid, ip) + Fail(c, Wait)
      else if !o.scriptOk then
        Started(c, iid, ip) + [ScriptCall(iid, c.slug, password, dbPassword)] + Fail(c, Script)
      else
        Started(c, iid, ip) + [ScriptCall(iid, c.slug, password, dbPassword)]
        + Announce(c, ip, password, o.dnsOk, o.emailOk) + [UpdateStatus(c.id, Active)]
  }

  /** Step 1 of `deprovision`: the export call, then the download-link email
      when it produced a URL, or a log line when it failed. Nothing is
      written to the table. */
  function ExportStep(c: Customer, r: ExportOutcome): (t: seq<Effect>)
    ensures |t| == 2 && t[0] == ExportCall(c.ec2InstanceId, c.slug)
    ensures r.ExportFailed? <==> t[1] == LogFailure(Export)
    ensures r.Exported? ==> t[1] == ExportEmailCall(c.email, r.url)
    ensures Inert(t)
  {
    [ExportCall(c.ec2InstanceId, c.slug)] +
    match r
    case ExportFailed => [LogFailure(Export)]
    case Exported(url) => [ExportEmailCall(c.email, url)]
  }

  /** Steps 1 to 3 of `deprovision`, each best effort: termination and DNS
      removal are attempted whatever happened before (`DeprovisionTeardown`),
      and nothing is written to the table. */
  function Teardown(c: Customer, o: DeprovisionOutcomes): (t: seq<Effect>)
    ensures Inert(t)
  {
    ExportStep(c, o.exportResult)
    + [TerminateCall(c.ec2InstanceId)] + Logged(o.terminateOk, Terminate)
    + [DnsDeleteCall(c.slug, c.ec2PublicIp)] + Logged(o.dnsOk, DnsDelete)
  }

  /** The effects of `deprovision` for the record `c` as read at cancel time:
      `cancelled` is written first, and nothing is written after it. */
  function DeprovisionTrace(c: Customer, o: DeprovisionOutcomes): (t: seq<Effect>)
    ensures t != [] && t[0] == UpdateStatus(c.id, Cancelled)
    ensures forall i | 1 <= i < |t| :: !t[i].UpdateEC2? && !t[i].UpdateStatus?
  {
    var t := [UpdateStatus(c.id, Cancelled)] + Teardown(c, o);
    assert t[1..] == Teardown(c, o);
    t
  }

  // ---------------------------------------------------------------------------
  // Reading traces

  /** The effect of one trace entry on the table. */
  function Apply(rows: Rows, e: Effect): Rows {
    match e
    case UpdateEC2(id, iid, ip) => WithEC2(rows, id, iid, ip)
    case UpdateStatus(id, s) => WithStatus(rows, id, s)
    case _ => rows
  }

  /** The table after every store write of `t`, in order. */
  function Replay(rows: Rows, t: seq<Effect>): Rows {
    if t == [] then rows else Apply(Replay(rows, t[..|t| - 1]), t[|t| - 1])
  }

  /** The statuses written by `t`, in order. */
  function StatusWrites(t: seq<Effect>): seq<Status> {
    if t == [] then []
    else StatusWrites(t[..|t| - 1]) + (if t[|t| - 1].UpdateStatus? then [t[|t| - 1].status] else [])
  }

  /** `t` without its log lines: what the outside world sees. */
  function Observable(t: seq<Effect>): seq<Effect> {
    if t == [] then []
    else Observable(t[..|t| - 1]) + (if t[|t| - 1].LogFailure? then [] else [t[|t| - 1]])
  }

  /** `t` writes nothing to the table. */
  predicate Inert(t: seq<Effect>) {
    forall e | e in t :: !e.UpdateEC2? && !e.UpdateStatus?
  }

  lemma {:induction false} ReplayAppend(rows: Rows, a: seq<Effect>, b: seq<Effect>)
    ensures Replay(rows, a + b) == Replay(Replay(rows, a), b)
    decreases |b|
  {
    if b == [] {
      assert a + b == a;
    } else {
      assert (a + b)[..|a + b| - 1] == a + b[..|b| - 1];
      ReplayAppend(rows, a, b[..|b| - 1]);
    }
  }

  lemma {:induction false} StatusWritesAppend(a: seq<Effect>, b: seq<Effect>)
    ensures StatusWrites(a + b) == StatusWrites(a) + StatusWrites(b)
    decreases |b|
  {
    if b == [] {
      assert a + b == a;
    } else {
      assert (a + b)[..|a + b| - 1] == a + b[..|b| - 1];
      StatusWritesAppend(a, b[..|b| - 1]);
    }
  }

  lemma {:induction false} ObservableAppend(a: seq<Effect>, b: seq<Effect>)
    ensures Observable(a + b) == Observable(a) + Observable(b)
    decreases |b|
  {
    if b == [] {
      assert a + b == a;
    } else {
      assert (a + b)[..|a + b| - 1] == a + b[..|b| - 1];
      ObservableAppend(a, b[..|b| - 1]);
    }
  }

  lemma ReplayOne(rows: Rows, e: Effect)
    ensures Replay(rows, [e]) == Apply(rows, e)
  {
    assert [e][..0] == [];
  }

  lemma StatusWritesOne(e: Effect)
    ensures StatusWrites([e]) == if e.UpdateStatus? then [e.status] else []
  {
    assert [e][..0] == [];
  }

  lemma ObservableOne(e: Effect)
    ensures Observable([e]) == if e.LogFailure? then [] else [e]
  {
    assert [e][..0] == [];
  }

  /** Entries that are not store writes leave the table alone. */
  lemma {:induction false} ReplayInert(rows: Rows, t: seq<Effect>)
    requires Inert(t)
    ensures Replay(rows, t) == rows
    decreases |t|
  {
    if t != [] {
      assert t[|t| - 1] in t;
      assert t[..|t| - 1] <= t;
      ReplayInert(rows, t[..|t| - 1]);
    }
  }

  lemma {:induction false} NoStatusWrites(t: seq<Effect>)
    requires forall e | e in t :: !e.UpdateStatus?
    ensures StatusWrites(t) == []
    decreases |t|
  {
    if t != [] {
      assert t[|t| - 1] in t;
      assert t[..|t| - 1] <= t;
      NoStatusWrites(t[..|t| - 1]);
    }
  }

  lemma ObservableLogged(ok: bool, step: Step)
    ensures Observable(Logged(ok, step)) == []
  {
    if !ok {
      ObservableOne(LogFailure(step));
    }
  }

  /** Replaying store writes never adds or removes rows and never touches a
      row's id, billing ids, email or slug: a slug is immutable once assigned. */
  lemma {:induction false} ReplayKeepsIdentity(rows: Rows, t: seq<Effect>)
    ensures Replay(rows, t).Keys == rows.Keys
    ensures forall id | id in rows ::
      var r := Replay(rows, t)[id];
      && r.id == rows[id].id && r.slug == rows[id].slug && r.email == rows[id].email
      && r.stripeCustomerId == rows[id].stripeCustomerId
      && r.stripeSubscriptionId == rows[id].stripeSubscriptionId
    decreases |t|
  {
    if t != [] {
      ReplayKeepsIdentity(rows, t[..|t| - 1]);
    }
  }

  /** The same for one row: it stays, and keeps its billing id. */
  lemma {:induction false} ReplayKeepsStripeId(rows: Rows, t: seq<Effect>, id: int)
    requires id in rows
    ensures id in Replay(rows, t)
    ensures Replay(rows, t)[id].stripeCustomerId == rows[id].stripeCustomerId
    decreases |t|
  {
    if t != [] {
      ReplayKeepsStripeId(rows, t[..|t| - 1], id);
    }
  }

  // ---------------------------------------------------------------------------
  // Provisioning

  lemma StartedReplay(rows: Rows, c: Customer, iid: string, ip: string)
    ensures Replay(rows, Started(c, iid, ip)) == WithEC2(rows, c.id, iid, ip)
  {
    var a, b, w := [LaunchCall(c.slug)], [UpdateEC2(c.id, iid, ip)], [WaitCall(iid)];
    ReplayAppend(rows, a + b, w);
    ReplayAppend(rows, a, b);
    ReplayOne(rows, LaunchCall(c.slug));
    ReplayOne(rows, UpdateEC2(c.id, iid, ip));
    ReplayOne(WithEC2(rows, c.id, iid, ip), WaitCall(iid));
  }

  lemma AnnounceObservable(c: Customer, ip: string, password: string, dnsOk: bool, emailOk: bool)
    ensures Observable(Announce(c, ip, password, dnsOk, emailOk))
         == [DnsCreateCall(c.slug, ip), WelcomeCall(c.email, c.slug, password)]
  {
    var d, w := [DnsCreateCall(c.slug, ip)], [WelcomeCall(c.email, c.slug, password)];
    var l1, l2 := Logged(dnsOk, DnsCreate), Logged(emailOk, WelcomeEmail);
    calc {
      Observable(Announce(c, ip, password, dnsOk, emailOk));
    ==
      Observable(d + l1 + w + l2);
    == { ObservableAppend(d + l1 + w, l2); ObservableLogged(emailOk, WelcomeEmail); }
      Observable(d + l1 + w) + [];
    == { ObservableAppend(d + l1, w); ObservableOne(w[0]); }
      Observable(d + l1) + w + [];
    == { ObservableAppend(d, l1); ObservableLogged(dnsOk, DnsCreate); ObservableOne(d[0]); }
      d + [] + w + [];
    }
  }

  /** Every run writes exactly one status: `failed` when launch, wait or
      script fails, `active` otherwise; and that write is the last effect. */
  lemma ProvisionWritesOneStatus(c: Customer, password: string, dbPassword: string, o: ProvisionOutcomes)
    ensures StatusWrites(ProvisionTrace(c, password, dbPassword, o)) == [if FatalFailure(o) then Failed else Active]
    ensures var t := ProvisionTrace(c, password, dbPassword, o);
      t[|t| - 1] == UpdateStatus(c.id, if FatalFailure(o) then Failed else Active)
  {
    var t := ProvisionTrace(c, password, dbPassword, o);
    var last := UpdateStatus(c.id, if FatalFailure(o) then Failed else Active);
    var front: seq<Effect>;
    match o.launch {
      case LaunchFailed =>
        front := [LaunchCall(c.slug), LogFailure(Launch)];
        assert t == front + [last];
      case Launched(iid, ip) =>
        if !o.waitOk {
          front := Started(c, iid, ip) + [LogFailure(Wait)];
          assert t == front + [last];
        } else if !o.scriptOk {
          front := Started(c, iid, ip) + [ScriptCall(iid, c.slug, password, dbPassword)] + [LogFailure(Script)];
          assert t == front + [last];
        } else {
          front := Started(c, iid, ip) + [ScriptCall(iid, c.slug, password, dbPassword)]
            + Announce(c, ip, password, o.dnsOk, o.emailOk);
          assert t == front + [last];
        }
    }
    assert forall e | e in front :: !e.UpdateStatus?;
    StatusWritesAppend(front, [last]);
    NoStatusWrites(front);
    StatusWritesOne(last);
  }

  /** A failed launch, wait or script stops the run: no DNS record, no
      welcome email, no `active`. A failed launch also writes no machine
      fields. */
  lemma ProvisionFatalStops(c: Customer, password: string, dbPassword: string, o: ProvisionOutcomes)
    requires FatalFailure(o)
    ensures var t := ProvisionTrace(c, password, dbPassword, o);
      forall e | e in t :: !e.DnsCreateCall? && !e.WelcomeCall? && e != UpdateStatus(c.id, Active)
    ensures var t := ProvisionTrace(c, password, dbPassword, o);
      o.launch.LaunchFailed? ==> forall e | e in t :: !e.UpdateEC2? && !e.WaitCall? && !e.ScriptCall?
  {
  }

  /** After a successful launch the machine id and address are written
      together, in one update, right after the launch and before the wait;
      no other machine write happens in the run. */
  lemma ProvisionMachineBeforeWait(c: Customer, password: string, dbPassword: string, o: ProvisionOutcomes)
    requires o.launch.Launched?
    ensures var t := ProvisionTrace(c, password, dbPassword, o);
      && |t| >= 3
      && t[..3] == [LaunchCall(c.slug), UpdateEC2(c.id, o.launch.instanceId, o.launch.publicIp), WaitCall(o.launch.instanceId)]
      && forall i | 3 <= i < |t| :: !t[i].UpdateEC2?
  {
    var t := ProvisionTrace(c, password, dbPassword, o);
    var iid, ip := o.launch.instanceId, o.launch.publicIp;
    var s := Started(c, iid, ip);
    var rest := t[3..];
    assert t == s + rest;
    if !FatalFailure(o) {
    }
    assert forall e | e in rest :: !e.UpdateEC2?;
    forall i | 3 <= i < |t|
      ensures !t[i].UpdateEC2?
    {
      assert t[i] == rest[i - 3];
    }
  }

  /** When launch, wait and script succeed, the run makes the DNS call, then
      sends the welcome email with the login password, then writes `active`
      as its last effect, whatever the DNS and email outcomes. */
  lemma ProvisionSuccessOrder(c: Customer, password: string, dbPassword: string, o: ProvisionOutcomes)
    requires !FatalFailure(o)
    ensures var t := ProvisionTrace(c, password, dbPassword, o);
      exists i, j | 0 <= i < j < |t| - 1 ::
        && t[i] == DnsCreateCall(c.slug, o.launch.publicIp)
        && t[j] == WelcomeCall(c.email, c.slug, password)
        && t[|t| - 1] == UpdateStatus(c.id, Active)
  {
    var t := ProvisionTrace(c, password, dbPassword, o);
    var ip := o.launch.publicIp;
    var a := Announce(c, ip, password, o.dnsOk, o.emailOk);
    var k := if o.dnsOk then 1 else 2;
    assert a[0] == DnsCreateCall(c.slug, ip);
    assert a[k] == WelcomeCall(c.email, c.slug, password);
    var head := Started(c, o.launch.instanceId, ip) + [ScriptCall(o.launch.instanceId, c.slug, password, dbPassword)];
    assert t == head + a + [UpdateStatus(c.id, Active)];
    assert t[4] == a[0] && t[4 + k] == a[k];
  }

  /** DNS and welcome-email failures are only logged: apart from log lines
      the run is the same as if they had succeeded. */
  lemma ProvisionBestEffort(c: Customer, password: string, dbPassword: string, o: ProvisionOutcomes)
    ensures Observable(ProvisionTrace(c, password, dbPassword, o))
         == Observable(ProvisionTrace(c, password, dbPassword, o.(dnsOk := true, emailOk := true)))
  {
    if !FatalFailure(o) {
      var iid, ip := o.launch.instanceId, o.launch.publicIp;
      var head := Started(c, iid, ip) + [ScriptCall(iid, c.slug, password, dbPassword)];
      var tail := [UpdateStatus(c.id, Active)];
      var a := Announce(c, ip, password, o.dnsOk, o.emailOk);
      var a' := Announce(c, ip, password, true, true);
      ObservableAppend(head + a, tail);
      ObservableAppend(head, a);
      ObservableAppend(head + a', tail);
      ObservableAppend(head, a');
      AnnounceObservable(c, ip, password, o.dnsOk, o.emailOk);
      AnnounceObservable(c, ip, password, true, true);
    }
  }

  /** The record after a run: machine fields set when the launch succeeded,
      status `failed` or `active`, every other row and field untouched. */
  lemma ProvisionFinalRecord(rows: Rows, c: Customer, password: string, dbPassword: string, o: ProvisionOutcomes)
    ensures Replay(rows, ProvisionTrace(c, password, dbPassword, o))
         == WithStatus(
              if o.launch.Launched? then WithEC2(rows, c.id, o.launch.instanceId, o.launch.publicIp) else rows,
              c.id,
              if FatalFailure(o) then Failed else Active)
  {
    var t := ProvisionTrace(c, password, dbPassword, o);
    var last := UpdateStatus(c.id, if FatalFailure(o) then Failed else Active);
    var start: seq<Effect>, mid: seq<Effect>;
    match o.launch {
      case LaunchFailed =>
        start, mid := [LaunchCall(c.slug)], [LogFailure(Launch)];
        ReplayOne(rows, LaunchCall(c.slug));
      case Launched(iid, ip) =>
        start := Started(c, iid, ip);
        StartedReplay(rows, c, iid, ip);
        if !o.waitOk {
          mid := [LogFailure(Wait)];
        } else if !o.scriptOk {
          mid := [ScriptCall(iid, c.slug, password, dbPassword), LogFailure(Script)];
        } else {
          mid := [ScriptCall(iid, c.slug, password, dbPassword)] + Announce(c, ip, password, o.dnsOk, o.emailOk);
        }
    }
    assert t == start + mid + [last];
    ReplayAppend(rows, start + mid, [last]);
    ReplayAppend(rows, start, mid);
    ReplayInert(Replay(rows, start), mid);
    ReplayOne(Replay(rows, start), last);
  }

  // ---------------------------------------------------------------------------
  // Deprovisioning

  /** `cancelled` is written first, and it is the only status written. */
  lemma DeprovisionCancelsFirst(c: Customer, o: DeprovisionOutcomes)
    ensures DeprovisionTrace(c, o)[0] == UpdateStatus(c.id, Cancelled)
    ensures StatusWrites(DeprovisionTrace(c, o)) == [Cancelled]
  {
    StatusWritesAppend([UpdateStatus(c.id, Cancelled)], Teardown(c, o));
    StatusWritesOne(UpdateStatus(c.id, Cancelled));
    NoStatusWrites(Teardown(c, o));
  }

  /** The export email goes out exactly when the export produced a URL, and
      it carries that URL to the record's address. */
  lemma DeprovisionExportEmail(c: Customer, o: DeprovisionOutcomes)
    ensures (exists e | e in DeprovisionTrace(c, o) :: e.ExportEmailCall?) <==> o.exportResult.Exported?
    ensures forall e | e in DeprovisionTrace(c, o) && e.ExportEmailCall? ::
      o.exportResult.Exported? && e == ExportEmailCall(c.email, o.exportResult.url)
  {
    var x := ExportStep(c, o.exportResult);
    var rest := [TerminateCall(c.ec2InstanceId)] + Logged(o.terminateOk, Terminate)
      + [DnsDeleteCall(c.slug, c.ec2PublicIp)] + Logged(o.dnsOk, DnsDelete);
    assert DeprovisionTrace(c, o) == [UpdateStatus(c.id, Cancelled)] + x + rest;
    assert forall e | e in rest :: !e.ExportEmailCall?;
    if o.exportResult.Exported? {
      assert x[1] == ExportEmailCall(c.email, o.exportResult.url);
    }
  }

  /** Termination and DNS removal are always attempted, in that order, with
      the machine id and address of the record as read at cancel time. */
  lemma DeprovisionTeardown(c: Customer, o: DeprovisionOutcomes)
    ensures var t := DeprovisionTrace(c, o);
      exists i, j | 0 <= i < j < |t| ::
        t[i] == TerminateCall(c.ec2InstanceId) && t[j] == DnsDeleteCall(c.slug, c.ec2PublicIp)
  {
    var t := DeprovisionTrace(c, o);
    var head := [UpdateStatus(c.id, Cancelled)] + ExportStep(c, o.exportResult);
    var rest := [TerminateCall(c.ec2InstanceId)] + Logged(o.terminateOk, Terminate) + [DnsDeleteCall(c.slug, c.ec2PublicIp)];
    var j := if o.terminateOk then 1 else 2;
    assert rest[0] == TerminateCall(c.ec2InstanceId) && rest[j] == DnsDeleteCall(c.slug, c.ec2PublicIp);
    assert |head| == 3;
    assert t == head + rest + Logged(o.dnsOk, DnsDelete);
    assert t[3] == rest[0] && t[3 + j] == rest[j];
  }

  /** The only table change of a teardown is the `cancelled` status. */
  lemma DeprovisionFinalRecord(rows: Rows, c: Customer, o: DeprovisionOutcomes)
    ensures Replay(rows, DeprovisionTrace(c, o)) == WithStatus(rows, c.id, Cancelled)
  {
    ReplayAppend(rows, [UpdateStatus(c.id, Cancelled)], Teardown(c, o));
    ReplayOne(rows, UpdateStatus(c.id, Cancelled));
    ReplayInert(WithStatus(rows, c.id, Cancelled), Teardown(c, o));
  }

  /** The status is never consulted: cancelling an already cancelled (or
      failed) record runs the same full teardown again. */
  lemma DeprovisionIgnoresStatus(c: Customer, s: Status, o: DeprovisionOutcomes)
    ensures DeprovisionTrace(c.(status := s), o) == DeprovisionTrace(c, o)
  {
  }
}
