/** The `instances` table: the same store shape as the customers table, but
    without email or subscription columns, so only the billing id and the slug
    are UNIQUE. An instance also has a JSON view that never carries its
    SSH private key. */
module InstanceStore {
  import opened Wrappers

  datatype Status = Provisioning | Active | Failed | Cancelled

  /** The text each status is stored and serialised as. */
  function StatusName(s: Status): (name: string)
    ensures s == Provisioning <==> name == "provisioning"
    ensures s == Active <==> name == "active"
    ensures s == Failed <==> name == "failed"
    ensures s == Cancelled <==> name == "cancelled"
  {
    match s
    case Provisioning => "provisioning"
    case Active => "active"
    case Failed => "failed"
    case Cancelled => "cancelled"
  }

  /** One row; the creation timestamp is not modelled. */
  datatype Instance = Instance(
    id: int,
    stripeCustomerId: string,
    slug: string,
    ec2InstanceId: string,
    ec2PublicIp: string,
    sshPrivateKey: string,
    status: Status)

  datatype CreateError = UniqueViolation

  type Rows = map<int, Instance>

  ghost predicate Unique(rows: Rows) {
    forall i, j | i in rows && j in rows && i != j ::
      && rows[i].stripeCustomerId != rows[j].stripeCustomerId
      && rows[i].slug != rows[j].slug
  }

  /** The row the INSERT stores: billing id, slug and status; machine columns
      and the key take their '' defaults. */
  function NewRow(inst: Instance, id: int): (r: Instance)
    ensures r.id == id && r.status == inst.status && r.slug == inst.slug
    ensures r.stripeCustomerId == inst.stripeCustomerId
    ensures r.ec2InstanceId == "" && r.ec2PublicIp == "" && r.sshPrivateKey == ""
  {
    Instance(id, inst.stripeCustomerId, inst.slug, "", "", "", inst.status)
  }

  function WithEC2(rows: Rows, id: int, instanceId: string, publicIp: string): (r: Rows)
    ensures r.Keys == rows.Keys
    ensures forall k | k in rows && k != id :: r[k] == rows[k]
    ensures id in rows ==> r[id] == rows[id].(ec2InstanceId := instanceId, ec2PublicIp := publicIp)
  {
    if id in rows then rows[id := rows[id].(ec2InstanceId := instanceId, ec2PublicIp := publicIp)] else rows
  }

  function WithStatus(rows: Rows, id: int, status: Status): (r: Rows)
    ensures r.Keys == rows.Keys
    ensures forall k | k in rows && k != id :: r[k] == rows[k]
    ensures id in rows ==> r[id] == rows[id].(status := status)
  {
    if id in rows then rows[id := rows[id].(status := status)] else rows
  }

  function WithSSHKey(rows: Rows, id: int, key: string): (r: Rows)
    ensures r.Keys == rows.Keys
    ensures forall k | k in rows && k != id :: r[k] == rows[k]
    ensures id in rows ==> r[id] == rows[id].(sshPrivateKey := key)
  {
    if id in rows then rows[id := rows[id].(sshPrivateKey := key)] else rows
  }

  function Slugs(rows: Rows): (s: set<string>)
    ensures forall id | id in rows :: rows[id].slug in s
    ensures forall x | x in s :: exists id | id in rows :: rows[id].slug == x
  {
    set id | id in rows :: rows[id].slug
  }

  function StripeIds(rows: Rows): (s: set<string>)
    ensures forall id | id in rows :: rows[id].stripeCustomerId in s
    ensures forall x | x in s :: exists id | id in rows :: rows[id].stripeCustomerId == x
  {
    set id | id in rows :: rows[id].stripeCustomerId
  }

  /** No subscription column here: only the billing id and the slug can clash. */
  predicate Conflicts(rows: Rows, inst: Instance) {
    inst.stripeCustomerId in StripeIds(rows) || inst.slug in Slugs(rows)
  }

  class Store {
    var rows: Rows
    var nextId: int

    ghost predicate Valid()
      reads this
    {
      && 1 <= nextId
      && (forall id | id in rows :: 1 <= id < nextId && rows[id].id == id)
      && Unique(rows)
    }

    constructor ()
      ensures Valid() && rows == map[] && nextId == 1
    {
      rows := map[];
      nextId := 1;
    }

    /** INSERT ... RETURNING id; the sequence value is consumed even when the
        UNIQUE check then rejects the row. */
    method Create(inst: Instance) returns (r: Result<Instance, CreateError>)
      requires Valid()
      modifies this
      ensures Valid()
      ensures nextId == old(nextId) + 1
      ensures old(nextId) !in old(rows)
      ensures r.Err? <==> Conflicts(old(rows), inst)
      ensures r.Err? ==> rows == old(rows)
      ensures r.Ok? ==> r.value == inst.(id := old(nextId))
      ensures r.Ok? ==> rows == old(rows)[old(nextId) := NewRow(inst, old(nextId))]
    {
      var id := nextId;
      nextId := nextId + 1;
      if Conflicts(rows, inst) {
        return Err(UniqueViolation);
      }
      rows := rows[id := NewRow(inst, id)];
      return Ok(inst.(id := id));
    }

    method GetByStripeID(key: string) returns (r: Option<Instance>)
      requires Valid()
      ensures r.None? <==> key !in StripeIds(rows)
      ensures r.Some? ==> r.value.id in rows && rows[r.value.id] == r.value
      ensures r.Some? ==> r.value.stripeCustomerId == key
    {
      if exists id | id in rows :: rows[id].stripeCustomerId == key {
        var id :| id in rows && rows[id].stripeCustomerId == key;
        r := Some(rows[id]);
      } else {
        r := None;
      }
    }

    method GetBySlug(s: string) returns (r: Option<Instance>)
      requires Valid()
      ensures r.None? <==> s !in Slugs(rows)
      ensures r.Some? ==> r.value.id in rows && rows[r.value.id] == r.value
      ensures r.Some? ==> r.value.slug == s
    {
      if exists id | id in rows :: rows[id].slug == s {
        var id :| id in rows && rows[id].slug == s;
        r := Some(rows[id]);
      } else {
        r := None;
      }
    }

    method UpdateSSHKey(id: int, key: string)
      requires Valid()
      modifies this
      ensures Valid() && nextId == old(nextId)
      ensures rows == WithSSHKey(old(rows), id, key)
    {
      rows := WithSSHKey(rows, id, key);
    }

    method UpdateEC2(id: int, instanceId: string, publicIp: string)
      requires Valid()
      modifies this
      ensures Valid() && nextId == old(nextId)
      ensures rows == WithEC2(old(rows), id, instanceId, publicIp)
    {
      rows := WithEC2(rows, id, instanceId, publicIp);
    }

    method UpdateStatus(id: int, status: Status)
      requires Valid()
      modifies this
      ensures Valid() && nextId == old(nextId)
      ensures rows == WithStatus(old(rows), id, status)
    {
      rows := WithStatus(rows, id, status);
    }
  }

  /** A JSON value of the serialised view. */
  datatype JsonValue = JNumber(n: int) | JString(s: string)

  /** The fields `encoding/json` emits for an instance, under their tag names;
      the key field is tagged "-" and so is skipped. The timestamp is not
      modelled. */
  function ToJson(inst: Instance): (fields: seq<(string, JsonValue)>)
    ensures forall f | f in fields :: f.0 != "ssh_private_key"
    ensures |fields| == 6
  {
    [("id", JNumber(inst.id)),
     ("stripe_customer_id", JString(inst.stripeCustomerId)),
     ("slug", JString(inst.slug)),
     ("ec2_instance_id", JString(inst.ec2InstanceId)),
     ("ec2_public_ip", JString(inst.ec2PublicIp)),
     ("status", JString(StatusName(inst.status)))]
  }

  /** The view does not depend on the key: two instances that differ at most
      in their SSH key serialise identically. */
  lemma ToJsonHidesKey(a: Instance, b: Instance)
    requires a.(sshPrivateKey := "") == b.(sshPrivateKey := "")
    ensures ToJson(a) == ToJson(b)
  {
  }

  /** Everything except the key is recoverable from the view: two instances
      with the same view agree on every other field. */
  lemma ToJsonKeepsTheRest(a: Instance, b: Instance)
    requires ToJson(a) == ToJson(b)
    ensures a.(sshPrivateKey := "") == b.(sshPrivateKey := "")
  {
    assert ToJson(a)[5] == ToJson(b)[5];
    assert StatusName(a.status) == StatusName(b.status);
  }
}
