/** The lifecycle orchestrator: create and cancel intake and the provisioning
    and deprovisioning sequences, run against the customers table.

    The background goroutines of the Go handler are run here as plain calls, to
    completion. Every collaborator call and store write is appended to
    `effects`; a collaborator's success or failure is an input outcome. */
module Api {
  import opened Wrappers
  import opened CustomerStore
  import opened Lifecycle
  import Slug
  import Hex

  /** The decoded body of a create request. */
  datatype CreateRequest = CreateRequest(
    stripeCustomerId: string,
    stripeSubscriptionId: string,
    email: string)

  /** Replies to a create request: 400, 200 with the existing record, 500, or
      202 with the new record. */
  datatype CreateResponse =
    | BadRequest
    | Existing(customer: Customer)
    | CreateFailed
    | Accepted(customer: Customer)

  /** Replies to a lookup: 404 or 200 with the record. */
  datatype GetResponse = GetNotFound | Found(customer: Customer)

  /** Replies to a cancel request: 404 or 202. */
  datatype DeleteResponse = NotFound | DeleteAccepted

  /** Random bytes behind the tenant login password and the database password. */
  const PasswordBytes := 12
  const DbPasswordBytes := 24

  /** The record a create request persists. */
  function NewCustomer(id: int, req: CreateRequest, slug: string): (c: Customer)
    ensures c.id == id && c.slug == slug && c.status == Provisioning
    ensures c.stripeCustomerId == req.stripeCustomerId
    ensures c.stripeSubscriptionId == req.stripeSubscriptionId && c.email == req.email
    ensures c.ec2InstanceId == "" && c.ec2PublicIp == "" && c.sshPrivateKey == ""
  {
    Customer(id, req.stripeCustomerId, req.stripeSubscriptionId, req.email, slug, "", "", "", Provisioning)
  }

  class Handler {
    const store: Store
    /** Every collaborator call and store write made so far, in order. */
    var effects: seq<Effect>

    ghost predicate Valid()
      reads store
    {
      store.Valid()
    }

    constructor (store: Store)
      requires store.Valid()
      ensures this.store == store && effects == [] && Valid()
    {
      this.store := store;
      effects := [];
    }

    /** POST /customers. */
    method CreateCustomer(
      body: Option<CreateRequest>,
      passwordBytes: seq<Hex.byte>,
      dbPasswordBytes: seq<Hex.byte>,
      o: ProvisionOutcomes)
      returns (resp: CreateResponse)
      requires Valid()
      requires |passwordBytes| == PasswordBytes && |dbPasswordBytes| == DbPasswordBytes
      modifies this, store
      ensures Valid()
      // a body that does not decode: 400, nothing changes
      ensures body.None? ==> resp == BadRequest && unchanged(this, store)
      // a billing id already on file: that record, nothing changes
      ensures body.Some? && body.value.stripeCustomerId in StripeIds(old(store.rows)) ==>
        && resp.Existing?
        && resp.customer.id in old(store.rows) && old(store.rows)[resp.customer.id] == resp.customer
        && resp.customer.stripeCustomerId == body.value.stripeCustomerId
        && unchanged(this, store)
      // a new billing id whose subscription id is already on file: the INSERT fails, no provisioning
      ensures body.Some? && body.value.stripeCustomerId !in StripeIds(old(store.rows))
              && body.value.stripeSubscriptionId in SubscriptionIds(old(store.rows)) ==>
        && resp == CreateFailed
        && store.rows == old(store.rows) && effects == old(effects)
        && store.nextId == old(store.nextId) + 1
      // otherwise: a new `provisioning` record under the first free slug, then provisioning
      ensures body.Some? && body.value.stripeCustomerId !in StripeIds(old(store.rows))
              && body.value.stripeSubscriptionId !in SubscriptionIds(old(store.rows)) ==>
        && resp.Accepted?
        && resp.customer == NewCustomer(old(store.nextId), body.value, resp.customer.slug)
        && Slug.FirstFree(Slug.SlugBase(body.value.email), Slugs(old(store.rows)), resp.customer.slug)
        && store.nextId == old(store.nextId) + 1
        && var t := ProvisionTrace(resp.customer, Hex.Encode(passwordBytes), Hex.Encode(dbPasswordBytes), o);
           && effects == old(effects) + t
           && store.rows == Replay(old(store.rows)[resp.customer.id := resp.customer], t)
      // once a create has been answered with a record, its billing id is on
      // file, so a repeat of the request is answered with that record
      ensures resp.Existing? || resp.Accepted? ==>
        body.Some? && body.value.stripeCustomerId in StripeIds(store.rows)
    {
      if body.None? {
        return BadRequest;
      }
      var req := body.value;

      // Idempotency
      var existing := store.GetByStripeID(req.stripeCustomerId);
      if existing.Some? {
        return Existing(existing.value);
      }

      var slug := Slug.UniqueSlug(Slugs(store.rows), req.email);
      var password := Hex.Encode(passwordBytes);
      var dbPassword := Hex.Encode(dbPasswordBytes);

      var c := NewCustomer(0, req, slug);
      var created := store.Create(c);
      ConflictsOnSubscription(old(store.rows), c);
      if created.Err? {
        return CreateFailed;
      }
      c := created.value;

      ghost var inserted := store.rows;
      Provision(c, password, dbPassword, o);
      ReplayKeepsStripeId(inserted, ProvisionTrace(c, password, dbPassword, o), c.id);
      assert store.rows[c.id].stripeCustomerId == req.stripeCustomerId;
      return Accepted(c);
    }

    /** GET /customers/{slug}. */
    method GetCustomer(slug: string) returns (resp: GetResponse)
      requires Valid()
      ensures slug !in Slugs(store.rows) <==> resp == GetNotFound
      ensures resp.Found? ==>
        && resp.customer.slug == slug
        && resp.customer.id in store.rows && store.rows[resp.customer.id] == resp.customer
    {
      var c := store.GetBySlug(slug);
      if c.None? {
        return GetNotFound;
      }
      return Found(c.value);
    }

    /** DELETE /customers/{slug}. */
    method DeleteCustomer(slug: string, o: DeprovisionOutcomes) returns (resp: DeleteResponse)
      requires Valid()
      modifies this, store
      ensures Valid()
      ensures store.nextId == old(store.nextId)
      // unknown slug: 404, no teardown
      ensures slug !in Slugs(old(store.rows)) ==> resp == NotFound && unchanged(this, store)
      // known slug: 202 and a full teardown of that record, whatever its status
      ensures slug in Slugs(old(store.rows)) ==>
        && resp == DeleteAccepted
        && exists id | id in old(store.rows) && old(store.rows)[id].slug == slug ::
             && effects == old(effects) + DeprovisionTrace(old(store.rows)[id], o)
             && store.rows == Replay(old(store.rows), DeprovisionTrace(old(store.rows)[id], o))
    {
      var c := store.GetBySlug(slug);
      if c.None? {
        return NotFound;
      }
      Deprovision(c.value, o);
      return DeleteAccepted;
    }

    /** The provisioning sequence for the new record `c`. The entries of the
        run are collected in `run` and appended to `effects` when it ends. */
    method Provision(c: Customer, password: string, dbPassword: string, o: ProvisionOutcomes)
      requires Valid()
      modifies this, store
      ensures Valid()
      ensures store.nextId == old(store.nextId)
      ensures effects == old(effects) + ProvisionTrace(c, password, dbPassword, o)
      ensures store.rows == Replay(old(store.rows), ProvisionTrace(c, password, dbPassword, o))
    {
      ghost var rows0 := store.rows;
      ProvisionFinalRecord(rows0, c, password, dbPassword, o);

      // 1. Launch
      var run := [LaunchCall(c.slug)];
      if o.launch.LaunchFailed? {
        store.UpdateStatus(c.id, Failed);
        run := run + [LogFailure(Launch), UpdateStatus(c.id, Failed)];
        effects := effects + run;
        return;
      }
      var instanceId, publicIp := o.launch.instanceId, o.launch.publicIp;
      store.UpdateEC2(c.id, instanceId, publicIp);
      run := run + [UpdateEC2(c.id, instanceId, publicIp)];

      // 2. Wait until ready
      run := run + [WaitCall(instanceId)];
      if !o.waitOk {
        store.UpdateStatus(c.id, Failed);
        run := run + [LogFailure(Wait), UpdateStatus(c.id, Failed)];
        effects := effects + run;
        return;
      }

      // 3. Provisioning script
      run := run + [ScriptCall(instanceId, c.slug, password, dbPassword)];
      if !o.scriptOk {
        store.UpdateStatus(c.id, Failed);
        run := run + [LogFailure(Script), UpdateStatus(c.id, Failed)];
        effects := effects + run;
        return;
      }

      ghost var scripted := run;

      // 4. DNS record (best effort)
      run := run + [DnsCreateCall(c.slug, publicIp)];
      if !o.dnsOk {
        run := run + [LogFailure(DnsCreate)];
      }

      // 5. Welcome email (best effort)
      run := run + [WelcomeCall(c.email, c.slug, password)];
      if !o.emailOk {
        run := run + [LogFailure(WelcomeEmail)];
      }
      assert run == scripted + Announce(c, publicIp, password, o.dnsOk, o.emailOk);

      store.UpdateStatus(c.id, Active);
      run := run + [UpdateStatus(c.id, Active)];
      effects := effects + run;
    }

    /** The deprovisioning sequence for the record `c` as read at cancel time;
        entries are collected in `run` as in `Provision`. */
    method Deprovision(c: Customer, o: DeprovisionOutcomes)
      requires Valid()
      modifies this, store
      ensures Valid()
      ensures store.nextId == old(store.nextId)
      ensures effects == old(effects) + DeprovisionTrace(c, o)
      ensures store.rows == Replay(old(store.rows), DeprovisionTrace(c, o))
    {
      DeprovisionFinalRecord(store.rows, c, o);

      store.UpdateStatus(c.id, Cancelled);
      var run := [UpdateStatus(c.id, Cancelled)];

      // 1. Export data and email the download link
      run := run + [ExportCall(c.ec2InstanceId, c.slug)];
      match o.exportResult {
        case ExportFailed =>
          run := run + [LogFailure(Export)];
        case Exported(url) =>
          run := run + [ExportEmailCall(c.email, url)];
      }
      ghost var exported := run;

      // 2. Terminate the machine (best effort)
      run := run + [TerminateCall(c.ec2InstanceId)];
      if !o.terminateOk {
        run := run + [LogFailure(Terminate)];
      }

      // 3. Remove the DNS record (best effort)
      run := run + [DnsDeleteCall(c.slug, c.ec2PublicIp)];
      if !o.dnsOk {
        run := run + [LogFailure(DnsDelete)];
      }
      assert exported == [UpdateStatus(c.id, Cancelled)] + ExportStep(c, o.exportResult);
      assert run == DeprovisionTrace(c, o);

      effects := effects + run;
    }
  }
}


