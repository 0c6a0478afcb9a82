/** The `customers` table: one row per tenant, keyed by a SERIAL id, with
    UNIQUE billing (Stripe customer) id, subscription id and slug. The table
    lives in memory as a map from id to row plus the next value of the id
    sequence. */
module CustomerStore {
  import opened Wrappers

  /** Lifecycle status of a tenant (the four constants of the Go `customer` package). */
  datatype Status = Provisioning | Active | Failed | Cancelled

  /** One row. `id` is the SERIAL primary key; the creation timestamp is not
      modelled. */
  datatype Customer = Customer(
    id: int,
    stripeCustomerId: string,
    stripeSubscriptionId: string,
    email: string,
    slug: string,
    ec2InstanceId: string,
    ec2PublicIp: string,
    sshPrivateKey: string,
    status: Status)

  /** The only way an INSERT fails in this model: a UNIQUE column would be
      duplicated. */
  datatype CreateError = UniqueViolation

  type Rows = map<int, Customer>

  /** The UNIQUE constraints of the schema hold across all rows. */
  ghost predicate Unique(rows: Rows) {
    forall i, j | i in rows && j in rows && i != j ::
      && rows[i].stripeCustomerId != rows[j].stripeCustomerId
      && rows[i].stripeSubscriptionId != rows[j].stripeSubscriptionId
      && rows[i].slug != rows[j].slug
  }

  /** The row the INSERT stores: only billing ids, email, slug and status are
      written; the machine columns and the key take their '' defaults. */
  function NewRow(c: Customer, id: int): (r: Customer)
    ensures r.id == id && r.status == c.status && r.email == c.email && r.slug == c.slug
    ensures r.stripeCustomerId == c.stripeCustomerId && r.stripeSubscriptionId == c.stripeSubscriptionId
    ensures r.ec2InstanceId == "" && r.ec2PublicIp == "" && r.sshPrivateKey == ""
  {
    Customer(id, c.stripeCustomerId, c.stripeSubscriptionId, c.email, c.slug, "", "", "", c.status)
  }

  /** `UPDATE customers SET ec2_instance_id, ec2_public_ip WHERE id = ...`. */
  function WithEC2(rows: Rows, id: int, instanceId: string, publicIp: string): (r: Rows)
    ensures r.Keys == rows.Keys
    ensures forall k | k in rows && k != id :: r[k] == rows[k]
    ensures id in rows ==> r[id] == rows[id].(ec2InstanceId := instanceId, ec2PublicIp := publicIp)
  {
    if id in rows then rows[id := rows[id].(ec2InstanceId := instanceId, ec2PublicIp := publicIp)] else rows
  }

  /** `UPDATE customers SET status WHERE id = ...`, with no transition check. */
  function WithStatus(rows: Rows, id: int, status: Status): (r: Rows)
    ensures r.Keys == rows.Keys
    ensures forall k | k in rows && k != id :: r[k] == rows[k]
    ensures id in rows ==> r[id] == rows[id].(status := status)
  {
    if id in rows then rows[id := rows[id].(status := status)] else rows
  }

  /** `UPDATE customers SET ssh_private_key WHERE id = ...`. */
  function WithSSHKey(rows: Rows, id: int, key: string): (r: Rows)
    ensures r.Keys == rows.Keys
    ensures forall k | k in rows && k != id :: r[k] == rows[k]
    ensures id in rows ==> r[id] == rows[id].(sshPrivateKey := key)
  {
    if id in rows then rows[id := rows[id].(sshPrivateKey := key)] else rows
  }

  /** The slugs currently in the table. */
  function Slugs(rows: Rows): (s: set<string>)
    ensures forall id | id in rows :: rows[id].slug in s
    ensures forall x | x in s :: exists id | id in rows :: rows[id].slug == x
  {
    set id | id in rows :: rows[id].slug
  }

  /** The billing ids currently in the table. */
  function StripeIds(rows: Rows): (s: set<string>)
    ensures forall id | id in rows :: rows[id].stripeCustomerId in s
    ensures forall x | x in s :: exists id | id in rows :: rows[id].stripeCustomerId == x
  {
    set id | id in rows :: rows[id].stripeCustomerId
  }

  /** The subscription ids currently in the table. */
  function SubscriptionIds(rows: Rows): (s: set<string>)
    ensures forall id | id in rows :: rows[id].stripeSubscriptionId in s
    ensures forall x | x in s :: exists id | id in rows :: rows[id].stripeSubscriptionId == x
  {
    set id | id in rows :: rows[id].stripeSubscriptionId
  }

  /** True when `c` would duplicate one of the UNIQUE columns of some row. */
  predicate Conflicts(rows: Rows, c: Customer) {
    || c.stripeCustomerId in StripeIds(rows)
    || c.stripeSubscriptionId in SubscriptionIds(rows)
    || c.slug in Slugs(rows)
  }

  class Store {
    var rows: Rows
    /** Next value of the SERIAL sequence behind `id`. */
    var nextId: int

    /** Every row is stored under its own id, ids come from the sequence,
        and the UNIQUE constraints hold. */
    ghost predicate Valid()
      reads this
    {
      && 1 <= nextId
      && (forall id | id in rows :: 1 <= id < nextId && rows[id].id == id)
      && Unique(rows)
    }

    /** An empty table, as after the CREATE TABLE of the migration. */
    constructor ()
      ensures Valid() && rows == map[] && nextId == 1
    {
      rows := map[];
      nextId := 1;
    }

    /** INSERT ... RETURNING id. On success the caller gets `c` with its new id
        written back. The sequence value is drawn before the UNIQUE check, so
        a failed insert still consumes it, as in PostgreSQL. */
    method Create(c: Customer) returns (r: Result<Customer, CreateError>)
      requires Valid()
      modifies this
      ensures Valid()
      ensures nextId == old(nextId) + 1
      ensures old(nextId) !in old(rows)
      ensures r.Err? <==> Conflicts(old(rows), c)
      ensures r.Err? ==> rows == old(rows)
      ensures r.Ok? ==> r.value == c.(id := old(nextId))
      ensures r.Ok? ==> rows == old(rows)[old(nextId) := NewRow(c, old(nextId))]
    {
      var id := nextId;
      nextId := nextId + 1;
      if Conflicts(rows, c) {
        return Err(UniqueViolation);
      }
      rows := rows[id := NewRow(c, id)];
      return Ok(c.(id := id));
    }

    /** SELECT ... WHERE stripe_customer_id = key: the row, or nothing when no
        row has that billing id. */
    method GetByStripeID(key: string) returns (r: Option<Customer>)
      requires Valid()
      ensures r.None? <==> key !in StripeIds(rows)
      ensures r.Some? ==> r.value.id in rows && rows[r.value.id] == r.value
      ensures r.Some? ==> r.value.stripeCustomerId == key
    {
      if exists id | id in rows :: rows[id].stripeCustomerId == key {
        var id :| id in rows && rows[id].stripeCustomerId == key;
        r := Some(rows[id]);
      } else {
        r := None;
      }
    }

    /** SELECT ... WHERE slug = s: the row, or nothing when no row has that slug. */
    method GetBySlug(s: string) returns (r: Option<Customer>)
      requires Valid()
      ensures r.None? <==> s !in Slugs(rows)
      ensures r.Some? ==> r.value.id in rows && rows[r.value.id] == r.value
      ensures r.Some? ==> r.value.slug == s
    {
      if exists id | id in rows :: rows[id].slug == s {
        var id :| id in rows && rows[id].slug == s;
        r := Some(rows[id]);
      } else {
        r := None;
      }
    }

    method UpdateSSHKey(id: int, key: string)
      requires Valid()
      modifies this
      ensures Valid() && nextId == old(nextId)
      ensures rows == WithSSHKey(old(rows), id, key)
    {
      rows := WithSSHKey(rows, id, key);
    }

    method UpdateEC2(id: int, instanceId: string, publicIp: string)
      requires Valid()
      modifies this
      ensures Valid() && nextId == old(nextId)
      ensures rows == WithEC2(old(rows), id, instanceId, publicIp)
    {
      rows := WithEC2(rows, id, instanceId, publicIp);
    }

    method UpdateStatus(id: int, status: Status)
      requires Valid()
      modifies this
      ensures Valid() && nextId == old(nextId)
      ensures rows == WithStatus(old(rows), id, status)
    {
      rows := WithStatus(rows, id, status);
    }
  }

  /** With its billing id and slug both new, a row can only clash on its
      subscription id. */
  lemma ConflictsOnSubscription(rows: Rows, c: Customer)
    requires c.stripeCustomerId !in StripeIds(rows)
    requires c.slug !in Slugs(rows)
    ensures Conflicts(rows, c) <==> c.stripeSubscriptionId in SubscriptionIds(rows)
  {
  }

  /** Under the UNIQUE constraints a billing id names at most one row, so the
      lookup by billing id has only one possible answer. */
  lemma StripeIdNamesOneRow(rows: Rows, i: int, j: int)
    requires Unique(rows)
    requires i in rows && j in rows
    requires rows[i].stripeCustomerId == rows[j].stripeCustomerId
    ensures i == j
  {
  }

  /** Likewise a slug names at most one row. */
  lemma SlugNamesOneRow(rows: Rows, i: int, j: int)
    requires Unique(rows)
    requires i in rows && j in rows
    requires rows[i].slug == rows[j].slug
    ensures i == j
  {
  }
}
