# Tenant lifecycle orchestrator — a Dafny model

This project models the core of a small control plane that gives each paying
customer a dedicated cloud machine. The core has three parts.

- **The record stores.** These are the `customers` table and its near-twin, the
  `instances` table. Each is modelled as an in-memory table class: a map from
  the SERIAL id to the row, plus the next value of the id sequence. The UNIQUE
  columns of the schema are a class invariant. An INSERT that would duplicate
  one of them fails, and the sequence value is used up either way.
- **The intake handlers** `createCustomer`, `getCustomer` and `deleteCustomer`
  of the HTTP API, with the reply each one gives. `createCustomer` is
  idempotent on the billing (Stripe customer) id. It derives a unique slug from
  the contact address, turns random bytes into hex credentials and inserts a
  `provisioning` record.
- **The provisioning and deprovisioning sequences.** Each collaborator call
  (compute, DNS, notifier, exporter) is given its outcome as an input. Every
  call and every store write is recorded in a trace of effects. The
  specification functions `ProvisionTrace` and `DeprovisionTrace` state the
  whole trace for every combination of outcomes. The lemmas then state the
  failure policy over these traces:
  - launch, wait and script failures are fatal: the run writes `failed` and
    stops;
  - DNS, email, export and terminate failures are only logged.

Modules:
- `Wrappers`: `Option` and `Result`.
- `CustomerStore`, `InstanceStore`: the two tables.
- `Slug`: the slug base, the `%d` suffix and the candidate search.
- `Hex`: credential encoding.
- `Lifecycle`: effects, traces and their lemmas.
- `Api`: the handler class.

The background tasks are run as plain calls, to completion, before the
handler returns. The store is error-free: a database error is not modelled.

Where the specification's text and the Go code disagree, the model follows
the code:
- The slug base can be empty (`Slug.EmptyBase`). The specification asks for 1
  to 20 characters.
- The base can end with `-` after the cut to 20 characters
  (`Slug.BaseEndingInHyphen`), so `base--2` can be produced.
- Cancelling checks no status. A second cancel runs the full teardown again
  (`Lifecycle.DeprovisionIgnoresStatus`). The specification calls it a no-op.
- Cancelling a `failed` record writes `cancelled`.

## Model

| member | source | states |
|---|---|---|
| CustomerStore.NewRow | internal/customer/customer.go:61-70 | the inserted row carries the given billing ids, email, slug and status; machine id, address and key start empty |
| CustomerStore.WithEC2 | internal/customer/customer.go:113-119 | only the machine id and address of the addressed row change; an unknown id changes nothing |
| CustomerStore.WithStatus | internal/customer/customer.go:121-124 | only the status of the addressed row changes, whatever it was before; an unknown id changes nothing |
| CustomerStore.WithSSHKey | internal/customer/customer.go:108-111 | only the key of the addressed row changes |
| CustomerStore.Slugs | internal/customer/customer.go:45 | the slug column: every row's slug and nothing else |
| CustomerStore.StripeIds | internal/customer/customer.go:42 | the billing-id column: every row's billing id and nothing else |
| CustomerStore.SubscriptionIds | internal/customer/customer.go:43 | the subscription-id column: every row's subscription id and nothing else |
| CustomerStore.Store.constructor | internal/customer/customer.go:38-59 | a new table is empty, satisfies the UNIQUE constraints, and its sequence starts at 1 |
| CustomerStore.Store.Create | internal/customer/customer.go:61-70 | fails exactly when the billing id, subscription id or slug is already in the table, and then leaves the rows alone; otherwise inserts the new row under a fresh id and returns the record with that id; the sequence advances in both cases |
| CustomerStore.Store.GetByStripeID | internal/customer/customer.go:72-88 | nothing exactly when no row has that billing id; otherwise the stored row with that billing id |
| CustomerStore.Store.GetBySlug | internal/customer/customer.go:90-106 | nothing exactly when no row has that slug; otherwise the stored row with that slug |
| CustomerStore.Store.UpdateSSHKey | internal/customer/customer.go:108-111 | the table becomes `WithSSHKey` of the old one; the constraints keep holding |
| CustomerStore.Store.UpdateEC2 | internal/customer/customer.go:113-119 | the table becomes `WithEC2` of the old one; the constraints keep holding |
| CustomerStore.Store.UpdateStatus | internal/customer/customer.go:121-124 | the table becomes `WithStatus` of the old one, with no transition check |
| CustomerStore.StripeIdNamesOneRow | internal/customer/customer.go:42 | under the constraints, one billing id names at most one row |
| CustomerStore.SlugNamesOneRow | internal/customer/customer.go:45 | under the constraints, one slug names at most one row |
| CustomerStore.ConflictsOnSubscription | internal/customer/customer.go:42-45 | when the billing id and the slug are both new, an INSERT clashes exactly when the subscription id is already on file |
| InstanceStore.StatusName | internal/instance/instance.go:10-15 | each status is stored as its own distinct text |
| InstanceStore.NewRow | internal/instance/instance.go:52-59 | the inserted row carries billing id, slug and status; machine id, address and key start empty |
| InstanceStore.WithEC2 | internal/instance/instance.go:102-108 | only the machine id and address of the addressed row change |
| InstanceStore.WithStatus | internal/instance/instance.go:110-113 | only the status of the addressed row changes |
| InstanceStore.WithSSHKey | internal/instance/instance.go:97-100 | only the key of the addressed row changes |
| InstanceStore.Slugs | internal/instance/instance.go:41 | the slug column |
| InstanceStore.StripeIds | internal/instance/instance.go:40 | the billing-id column |
| InstanceStore.Store.constructor | internal/instance/instance.go:36-50 | a new table is empty and its sequence starts at 1 |
| InstanceStore.Store.Create | internal/instance/instance.go:52-59 | fails exactly when the billing id or slug is already in the table (there is no subscription column); otherwise inserts under a fresh id |
| InstanceStore.Store.GetByStripeID | internal/instance/instance.go:61-77 | nothing exactly when no row has that billing id; otherwise the stored row |
| InstanceStore.Store.GetBySlug | internal/instance/instance.go:79-95 | nothing exactly when no row has that slug; otherwise the stored row |
| InstanceStore.Store.UpdateSSHKey | internal/instance/instance.go:97-100 | the table becomes `WithSSHKey` of the old one |
| InstanceStore.Store.UpdateEC2 | internal/instance/instance.go:102-108 | the table becomes `WithEC2` of the old one |
| InstanceStore.Store.UpdateStatus | internal/instance/instance.go:110-113 | the table becomes `WithStatus` of the old one |
| InstanceStore.ToJson | internal/instance/instance.go:17-26 | the serialised view has six fields, none of them the private key |
| InstanceStore.ToJsonHidesKey | internal/instance/instance.go:23 | two instances that differ only in their key serialise identically |
| InstanceStore.ToJsonKeepsTheRest | internal/instance/instance.go:17-26 | two instances with the same view agree on every field except the key |
| Slug.AtIndex | internal/api/api.go:181 | the position of the first '@', or the length when there is none |
| Slug.AtIndexIsFirstAt | internal/api/api.go:181 | an '@' with no '@' before it is where the address is split |
| Slug.LocalPart | internal/api/api.go:181 | the first field of the split: a prefix of the address holding no '@', ended by the first '@' |
| Slug.Lower | internal/api/api.go:181 | same length, each character lower-cased, no upper-case letter left |
| Slug.RunLength | internal/api/api.go:177 | the length of the leading run of characters outside [a-z0-9] |
| Slug.Collapse | internal/api/api.go:177-181 | the result holds only [a-z0-9-], has no "--", is empty only for empty input, and starts with '-' exactly when the input starts outside [a-z0-9] |
| Slug.CollapseAlnumPrefix | internal/api/api.go:177-181 | a leading run of [a-z0-9] characters is copied unchanged |
| Slug.CollapseRun | internal/api/api.go:177-181 | a maximal run outside [a-z0-9] becomes exactly one '-'; with `CollapseAlnumPrefix` this fixes the result on every input |
| Slug.LeadingHyphens | internal/api/api.go:180 | the number of leading '-' |
| Slug.TrailingHyphens | internal/api/api.go:180 | the number of trailing '-' |
| Slug.TrimLeft | internal/api/api.go:180 | a suffix of the input that does not start with '-', with only '-' cut away |
| Slug.TrimRight | internal/api/api.go:180 | a prefix of the input that does not end with '-', with only '-' cut away |
| Slug.Trim | internal/api/api.go:180 | a slice of the input with only '-' outside it, that neither starts nor ends with '-' |
| Slug.Truncate | internal/api/api.go:182-184 | a prefix of the input: the whole input when it has at most 20 characters, exactly 20 characters otherwise |
| Slug.Normalise | internal/api/api.go:180-181 | the lower-cased, collapsed local part with only the '-' at its two ends cut away |
| Slug.SlugBase | internal/api/api.go:180-184 | the base of an address is at most 20 characters long |
| Slug.AlnumsCollapse | internal/api/api.go:177-181 | replacing runs keeps exactly the [a-z0-9] characters, in order |
| Slug.NormaliseShape | internal/api/api.go:180-181 | the cleaned local part holds only [a-z0-9-], has no "--", has no '-' at either end, and keeps exactly the [a-z0-9] characters of the lower-cased input |
| Slug.SlugBaseShape | internal/api/api.go:180-184 | the base holds only [a-z0-9-], is at most 20 characters, never starts with '-' and never has "--" |
| Slug.SlugBaseContent | internal/api/api.go:180-184 | the base is the cleaned local part when that has at most 20 characters, and its first 20 characters otherwise; it keeps a prefix of the [a-z0-9] characters, and it is empty exactly when the lower-cased local part has no [a-z0-9] character |
| Slug.JaneDoeBase | internal/api/api.go:180-184 | "jane.doe@" followed by any domain gives the base "jane-doe" |
| Slug.EmptyBase | internal/api/api.go:180-184 | the local part "+" gives the empty base |
| Slug.BaseEndingInHyphen | internal/api/api.go:180-184 | 19 letters followed by ".t" give a base that ends with '-' |
| Slug.Decimal | internal/api/api.go:191 | `%d` gives a non-empty digit string with no leading zero |
| Slug.ParseDecimalOfDecimal | internal/api/api.go:191 | reading the `%d` digits back gives the number |
| Slug.Candidate | internal/api/api.go:183-191 | the first candidate is the base itself; every later one extends the base with '-' and at least one more character |
| Slug.FirstFree | internal/api/api.go:185-192 | a first free candidate is not taken and starts with the base |
| Slug.CandidateInjective | internal/api/api.go:185-192 | distinct attempts give distinct candidates |
| Slug.CandidatesBelowCard | internal/api/api.go:185-192 | the first n - 1 candidates are n - 1 distinct strings |
| Slug.TakenPrefixBound | internal/api/api.go:185-192 | if the first n - 1 candidates are all taken, then n is at most one more than the number of taken slugs |
| Slug.FirstFreeBound | internal/api/api.go:185-192 | the first free candidate is found within one more attempt than there are taken slugs |
| Slug.FirstFreeUnique | internal/api/api.go:185-192 | the first free candidate is fixed by the taken set, so the search is deterministic |
| Slug.FirstFreeOfBase | internal/api/api.go:183-192 | a free base is used as it is; a taken base gets `-N` with N at least 2 |
| Slug.JaneDoeSecond | internal/api/api.go:179-192 | while "jane-doe" is taken, a second "jane.doe@" address gets "jane-doe-2" |
| Slug.UniqueSlug | internal/api/api.go:179-193 | the loop returns a slug that is not taken, namely the first free candidate of the base |
| Hex.Encode | internal/api/api.go:195-199 | n bytes give 2n lower-case hex digits |
| Hex.Decode | internal/api/api.go:198 | a decoded byte string has half the length of its digit string |
| Hex.DecodeEncode | internal/api/api.go:198 | decoding the digits gives the bytes back |
| Hex.EncodeInjective | internal/api/api.go:198 | distinct bytes give distinct credentials |
| Lifecycle.Logged | internal/api/api.go:137-145 | a best-effort step leaves no entry on success, and on failure exactly one log entry naming the step |
| Lifecycle.Started | internal/api/api.go:115-125 | a successful launch is three effects: the launch call first, the wait call last, and as its only store write the new machine's id and address on the record |
| Lifecycle.StartedReplay | internal/api/api.go:115-125 | replaying a successful launch sets the record's machine fields and nothing else |
| Lifecycle.Fail | internal/api/api.go:115-134 | a fatal failure logs the step first and then writes `failed` to the record, its only store write |
| Lifecycle.Announce | internal/api/api.go:136-145 | the DNS call comes first, and nothing is written to the table |
| Lifecycle.AnnounceObservable | internal/api/api.go:136-145 | apart from log lines, steps 4 and 5 are the DNS call and the welcome email, whatever their outcomes |
| Lifecycle.ProvisionTrace | internal/api/api.go:113-148 | a run starts with the launch call, and every store write it makes is to the provisioned record |
| Lifecycle.ExportStep | internal/api/api.go:154-160 | the export call comes first; then a log line exactly when the export failed, or the download-link email to the record's address with the returned URL; nothing is written to the table |
| Lifecycle.Teardown | internal/api/api.go:154-170 | export, terminate and DNS removal write nothing to the table |
| Lifecycle.DeprovisionTrace | internal/api/api.go:151-173 | `cancelled` is written first, and no store write follows it |
| Lifecycle.ReplayAppend | internal/api/api.go:113-173 | replaying two traces one after the other is replaying them joined |
| Lifecycle.ReplayKeepsIdentity | internal/api/api.go:113-173 | the store writes of a run never add or remove rows and never change a row's id, billing ids, email or slug |
| Lifecycle.ReplayKeepsStripeId | internal/api/api.go:113-173 | a row present before a run is still present after it, with the same billing id |
| Lifecycle.ProvisionWritesOneStatus | internal/api/api.go:113-148 | each run writes exactly one status, `failed` after a fatal failure and `active` otherwise, as its last effect |
| Lifecycle.ProvisionFatalStops | internal/api/api.go:115-134 | after a fatal failure there is no DNS call, no welcome email and no `active`; after a failed launch there is no machine write, wait or script |
| Lifecycle.ProvisionMachineBeforeWait | internal/api/api.go:115-125 | after a successful launch, the machine id and address are written together right after the launch and before the wait, and never again |
| Lifecycle.ProvisionSuccessOrder | internal/api/api.go:136-147 | without a fatal failure the run calls DNS, then sends the welcome email with the creation password, then writes `active` last |
| Lifecycle.ProvisionBestEffort | internal/api/api.go:136-145 | DNS and email failures change nothing but log lines |
| Lifecycle.ProvisionFinalRecord | internal/api/api.go:113-148 | after a run the record has the launched machine's fields, if any, and status `failed` or `active`; nothing else changes |
| Lifecycle.DeprovisionCancelsFirst | internal/api/api.go:151-152 | `cancelled` is the first effect and the only status written |
| Lifecycle.DeprovisionExportEmail | internal/api/api.go:154-160 | the export email is sent exactly when the export returns a URL, to the record's address, carrying that URL |
| Lifecycle.DeprovisionTeardown | internal/api/api.go:162-170 | terminate and DNS removal are always attempted, in that order, with the machine id and address read at cancel time |
| Lifecycle.DeprovisionFinalRecord | internal/api/api.go:151-173 | the only table change of a teardown is the `cancelled` status |
| Lifecycle.DeprovisionIgnoresStatus | internal/api/api.go:99-109 | the teardown does not depend on the current status, so a repeated cancel repeats it |
| Api.NewCustomer | internal/api/api.go:71-77 | a new record is `provisioning`, with the request's ids and address, the chosen slug, and empty machine fields and key |
| Api.Handler.constructor | internal/api/api.go:29-37 | a handler starts with no effects, over a table satisfying its constraints |
| Api.Handler.CreateCustomer | internal/api/api.go:53-87 | bad body: 400 with no change. Billing id on file: that record, with no change and no provisioning. Failed insert: 500 with no provisioning. Otherwise: 202 with a new `provisioning` record under the first free slug, followed by the provisioning trace and its table writes. After any reply with a record, the billing id is on file |
| Api.Handler.GetCustomer | internal/api/api.go:89-97 | not found exactly for an unknown slug; otherwise the stored record with that slug |
| Api.Handler.DeleteCustomer | internal/api/api.go:99-109 | unknown slug: not found, with no teardown and no change; otherwise accepted, followed by the deprovisioning trace of the record with that slug |
| Api.Handler.Provision | internal/api/api.go:113-148 | the effects recorded are `ProvisionTrace` of the outcomes, and the table is its replay |
| Api.Handler.Deprovision | internal/api/api.go:151-173 | the effects recorded are `DeprovisionTrace` of the outcomes, and the table is its replay |

## Left out

- HTTP plumbing is not modelled: routing, JSON decoding and encoding, and status-code writing. A body that does not decode is an absent request, and each reply is a datatype.
- The goroutines are not modelled as concurrent. Provisioning and deprovisioning run to completion inside the handler call, so the race between a cancel and an in-flight provision of the same record is not modelled.
- The collaborators (compute, DNS, notifier, exporter) are outcome inputs. Their AWS, SSH and e-mail internals, polling loops and timeouts are not part of this model. Nor are the repository's mismatched argument lists between the API and compute packages, or the store type passed at start-up. The step order follows api.go.
- Random bytes for the credentials are inputs. `crypto/rand` itself is not modelled.
- Store errors are not modelled. The table never fails except on a UNIQUE violation, so the error values that api.go ignores at lines 61 and 187 never arise.
- The SQL text, the `ALTER TABLE` migration, the `created_at` timestamps and the success log lines are not modelled. Failure log lines are kept as `LogFailure(step)` effects without their text.
- Slug.Lower: lower-cases ASCII letters only. Go's `strings.ToLower` also folds other Unicode letters, some of them (e.g. the Kelvin sign) into [a-z], so a base can differ for non-ASCII addresses.
- The orchestrator never stores the SSH key that a launch returns, so the model does not either. `UpdateSSHKey` is modelled only as a store operation.
- The customer record has no JSON tags, so its key would appear in replies. Replies are datatypes here, so this is not modelled. The instance view, where the key is tagged out, is modelled.
- Slug.UniqueSlug: takes the set of taken slugs as a parameter. It does not query the store once per attempt; the outcome is the same because nothing else writes the table during the search.
