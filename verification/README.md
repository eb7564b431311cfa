# Certheim: verified models of the certificate lifecycle

Dafny models of the parts of Certheim whose correctness is a matter of whole runs, with proofs.
Each source file that works by changing state is modelled by methods over a class or by loops. Their
contracts tie the new state to functions of the old one, and the lemmas prove what those
functions promise over every run. Check everything with `dafny verify dfyconfig.toml`.

| module | what it models |
|---|---|
| `AcmeLog`, `AcmeClient`, `AcmeGuarantees` | the RFC 8555 client: nonces, account, order flow, challenge solvers; every reply, every update of the zone or webroot and every openssl call may go any way; all of these are kept in a log, in order, and the contracts of the client are about it |
| `Keystore`, `KeyCustody`, `KeyRuns`, `KeyOverlap` | private keys on the host, in the vault and in the job row; each operation is the list of stores it passes through, so that every prefix is a point where the process may die; and fetches whose steps overlap |
| `ExpiryWarnings`, `FleetWarnings`, `FleetImport` | tiered expiry mail for jobs and for fleet certificates, and the fleet importer |
| `JobLifecycle`, `JobRaces`, `JobTable` | the statements that change jobs, the requests that race for a pending job, and the handlers running beside other requests |
| `Login`, `DomainQuota`, `Usernames` | the lockout, the licensed-domain cap, the allocation of user names |
| `Text`, `CsrSubject`, `SubjectConf`, `SubjectFile` | cleaning the subject of requests, rendering it, the helper's check, its 8192-byte limit and its reading of the file |
| `HostRollup`, `DbMigrate` | the per-host view of jobs, and the copy between databases |

## What the code promises, and where it does not

Some properties one would expect are false of the code. For each, the lemmas named give the exact condition
and, where that does not already show one, an input.

- A removal of a DNS record that fails with anything but `AcmeError` (a timeout of `nsupdate`, say) ends
  the cleanup, and the later records stay: `CleanupCanSkip`; exact condition `CleanupExact`. The loop in
  `backend/acme_client.py:222-228` swallows `AcmeError` only.
- A set-up that fails after it took effect, such as an `nsupdate` killed by its timeout once the server has applied the
  record, leaves an artefact the solver does not list: `KilledSetUpLeaks`; exact conditions `PutIsAttempted` and
  `FreshPutIsAttempted`.
- So the zone does not always end as it began. `ZoneOfRun` gives the exact condition for all outcomes of the updates,
  `NewArtefactsGone` for new artefacts, and `ZoneRestored` for clean updates and a completed cleanup.
- A job cancelled between the SELECT and the UPDATE of an attach ends issued, because that UPDATE names the id only:
  `CancelledThenIssued`; exact conditions `LateAttach` and `LateRevoke`, which the contracts of `AttachSignedCert` and
  `RevokeJob` carry. All other statements are guarded, and every interleaving of them is covered.
- Passes more than 7 days apart can skip the 14-day mail; 7 days is the exact limit: `SevenDaysIsTheLimit`.
- A second database copy adds nothing exactly when a unique constraint with no null column binds every copied
  row, and a wiped copy mirrors the source exactly when no two projected rows conflict: `CopyTwice`,
  `WipedCopyMirrors`, with the inputs `NullKeyCopiedTwice` and `ConflictDropsRow`. The documentation of `copy_database`
  promises both without condition. Every table of the schema has a primary key, so where both sides have its columns
  the first fails only for a row whose key is null, which SQLite allows in a text key. `SharedKeyIsIdempotent` and
  `SourceKeysMirror` are what a caller can check from the schema and the source rows.
- `clean_config` settles after two applications, not one; the settings stored and the file the helper reads
  agree exactly when the file is not cut and every stored value is trimmed: `CleanOnceIsNotEnough`, `CleanSettles`,
  `StoredAndReadAgree`.
- The helper keeps the first 8192 bytes of the rendered file, and a configuration within all the dashboard's limits
  can be longer and is accepted all the same; entries past the cut are lost exactly then: `FullIsCut`,
  `CutFileDiffers`, `CutIsAccepted`.
- Login attempts that overlap are each evaluated and can be counted once: n of them, however mixed, exceed the lockout
  bound by up to n - 1, and it survives exactly when n is at most 1: `Login.OverlapCostReached`, `Login.OverlapCost`,
  `Login.OverlapBound`.
- Fetches of a one-time key that overlap all return it: `OverlapReturnsAll`; at most one returns it exactly when
  there is one fetch only: `OverlapOnce`. A fetch that begins after another has ended gets nothing: `LateFetchGetsNothing`.
- Warning passes that overlap send a tier again: n mails among them exceed the bound of three by up to n - 1:
  `ExpiryWarnings.OverlapCostReached`, `ExpiryWarnings.OverlapCost`, `ExpiryWarnings.OverlapBound`.
- Domain claims that overlap can forget one another: `OverlappingClaims`; exact condition `OverlapKeepsClaim`. The cap
  on the stored set holds under every interleaving: `InterleavedWithinCap`.
- Saving a user's names again is meant to keep the username; for names longer than 60 characters it does not:
  `ResaveKeepsName`.
- A key such as `local:x` that `_upsert_user` adds without a name check keeps names apart exactly when `x` is
  free: `UncheckedKey`.

## Assumptions

- ACME: `FinalizeFindsReady` assumes a server that keeps section 7.1.6 of RFC 8555 and whose verdicts on
  authorizations are final for the run; `NonceSignedOnce` one that hands out each nonce once, and the clause about
  `badNonce` one that honours the nonce returned with that error (section 6.5 of RFC 8555). The bounds on work assume
  nothing.
- Keys: job ids, key names and keys are fresh at creation. `FlagsStay` and nothing else assumes that the helper
  fails to read a key only when there is none; `backend/keystore.py:229-231` clears the flag on any failed read.
  A fetch of a one-time key that dies after the vault entry is destroyed counts as having handed it out. The calls of
  `NeverLostInRun`, `BoundaryLeadsInRun` and `AtMostOnce` follow each other; `KeyOverlap` is about fetches that do not.
- Warnings: the update of `expiry_warned` after a sent mail succeeds. Only the mails are bounded; the
  `job.expiring` webhook fires even when the mail failed. A fingerprint determines its certificate's expiry.
  The passes of `AtMostThree`, and the passes and changes of `FleetMailBound`, follow each other.
- Jobs: the statements of one transaction may be separated by those of others. In the run theorems the updates of
  `_attach_signed_cert` and `revoke_job` find what their reads saw; their handlers say what happens otherwise.
- Quota: the settings store does not fail.
- Text: the letters of a name are lower-cased as ASCII.

## Model

| member | source | states |
|---|---|---|
| `AcmeLog.NonceSignedOnce` | backend/acme_client.py:275-299 | in every log the client leaves, two different requests never carry the same nonce, if the server never repeats one |
| `AcmeLog.BadNonceNamed` | backend/acme_client.py:306-307 | a problem type is a badNonce refusal exactly when it ends in `:badNonce`, whatever its namespace |
| `AcmeClient.CleanupExact` | backend/acme_client.py:175-181 | of the records listed, a cleanup attempts each exactly once if and only if no removal before the last died of an unexpected exception |
| `AcmeClient.CleanupCanSkip` | backend/acme_client.py:222-228 | two records of which the second is never attempted |
| `AcmeClient.Solver.Setup` | backend/acme_client.py:214-220 | one update, of the TXT record `_acme-challenge.<domain>.` or of the file named by the token; it succeeds, and the artefact is listed for removal, exactly when the update was carried out |
| `AcmeClient.Solver.Cleanup` | backend/acme_client.py:222-228 | removals only, in the order of set-up, one for each record unless one dies; the list is emptied exactly when the pass completes |
| `AcmeClient.SplitChain` | backend/acme_client.py:425-434 | an error exactly without a certificate; else the leaf is the first one and leaf and chain together are all of them, in order |
| `AcmeClient.ReadAuthz` | backend/acme_client.py:391-400 | nothing to do exactly for an object reported valid; a challenge chosen is one the server offered, dns-01 or http-01 as the solver asks; an error on JSON means there is none to answer |
| `AcmeClient.FirstOfKind` | backend/acme_client.py:396-400 | finds a challenge of the kind exactly when one is offered |
| `AcmeClient.AcmeClient.GetDirectory` | backend/acme_client.py:267-273 | a directory once read is kept and costs no further request; until then each call makes one |
| `AcmeClient.AcmeClient.GetNonce` | backend/acme_client.py:275-283 | the nonce returned came from the server and no request has been signed since; a cached one costs nothing, else at most one HEAD; a failure means that the directory or the nonce request failed |
| `AcmeClient.AcmeClient.PostOnce` | backend/acme_client.py:288-299 | one request with an unspent nonce, and the embedded key or a known account URL; it succeeds exactly when the request was answered, and a nonce in the reply is kept |
| `AcmeClient.AcmeClient.SignedPost` | backend/acme_client.py:285-310 | at most two requests to one address with one payload, the second only after a badNonce refusal; success if and only if the last request was accepted; a run never ends on a badNonce refusal it did not retry, and any other failure means that some request, nonce or openssl call of the run failed; a badNonce error reaches the caller exactly when the retry was refused for its nonce too |
| `AcmeClient.AcmeClient.Register` | backend/acme_client.py:325-340 | success means the server gave out a non-empty account URL with status 200 or 201 at the address the directory lists; failure, that a step of the run failed or the server took the request without giving an account |
| `AcmeClient.AcmeClient.EnsureAccount` | backend/acme_client.py:342-344 | with an account known it succeeds and nothing is sent; else success means the server opened or found one in the last request |
| `AcmeClient.AcmeClient.Poll` | backend/acme_client.py:347-357 | at most 20 calls; every read but the last found the object neither valid nor invalid; success means the last reported it valid, failure that a step failed, the object was invalid or unreadable, or it was still waiting at 20 reads |
| `AcmeClient.AcmeClient.CreateOrder` | backend/acme_client.py:382-388 | success means the server created the order returned, for exactly the names asked, at the address the directory lists; failure, that a step of the run failed or no usable order was given |
| `AcmeClient.AcmeClient.DoAuthz` | backend/acme_client.py:390-404 | success means the authorization was reported valid within the run; at most 22 calls; what is set up answers a challenge the authorization offered, and the CA is told only once it is in place; each failure has its cause in the run |
| `AcmeClient.AcmeClient.DoAuthorizations` | backend/acme_client.py:368-369 | success means every authorization was reported valid; failure, that one could not be had: those before it were reported valid, and nothing was set up or announced for those after it |
| `AcmeClient.AcmeClient.Authorize` | backend/acme_client.py:366-371 | whatever happens, the cleanup runs after all set-ups and follows the records in order; success means every authorization was seen valid; failure, that the cleanup died or one authorization could not be had, after which no other is begun |
| `AcmeClient.AcmeClient.Finish` | backend/acme_client.py:373-380 | the finalize request carries the CSR to the order's own address; success means it was accepted, the order reported valid, and the certificate read from the address the order gave; each failure has its cause in the run |
| `AcmeClient.AcmeClient.Issue` | backend/acme_client.py:359-380 | on every exit: finalize only after every authorization of the order was reported valid and again only after a badNonce refusal; no two uses of a nonce; a known account URL on every request but newAccount; what is set up answers challenges of the order's authorizations; one removal pass for what was set up; at most 24 + 22 N calls, twice as many POSTs and HEADs, one directory GET; what is returned is the order's certificate; and an error other than a repeated badNonce refusal means that a step of the run failed or the server gave no account, order, answerable authorization, timely verdict or certificate |
| `AcmeClient.AcmeClient.Revoke` | backend/acme_client.py:407-414 | at most two calls; success means the revocation of that certificate was the last request, at the address the directory lists, and was accepted; failure, that a step failed, or the directory offers no revocation |
| `AcmeGuarantees.VerdictStays` | backend/acme_client.py:366-369 | an authorization valid at the server stays valid while the run goes on |
| `AcmeGuarantees.OrderOpen` | backend/acme_client.py:366-374 | until a finalize request is accepted the order is ready, or pending with an authorization to prove, or abandoned over an invalid one |
| `AcmeGuarantees.FinalizeFindsReady` | backend/acme_client.py:359-374 | every finalize request of every run of Issue finds the order ready at the server |
| `AcmeGuarantees.ZoneOfRun` | backend/acme_client.py:156-228 | however the updates of a run of Issue end, the zone ends as what was there or was put in place less what was taken away, and as it began if and only if nothing new stayed and nothing old was taken |
| `AcmeGuarantees.NewArtefactsGone` | backend/acme_client.py:156-228 | when everything put in place was new, the zone ends as it began if and only if each artefact put in place was taken away |
| `AcmeGuarantees.PutIsAttempted` | backend/acme_client.py:156-228 | everything put in place has its removal attempted if and only if that holds of what failed set-ups leaked and of the records the cleanup did not reach |
| `AcmeGuarantees.FreshPutIsAttempted` | backend/acme_client.py:156-228 | when nothing is set up twice: if and only if no failed set-up left an artefact the solver does not list and the cleanup ran to its last record |
| `AcmeGuarantees.KilledSetUpLeaks` | backend/acme_client.py:214-218 | a set-up killed after it took effect leaves a new artefact that no removal is attempted for |
| `AcmeGuarantees.ZoneRestored` | backend/acme_client.py:214-228 | when failed set-ups did nothing, removals succeeded and the cleanup ran to its last record, the zone ends as it began if and only if the artefacts set up were new |
| `Keystore.SweepLeavesOthers` | backend/keystore.py:212-242 | a sweep changes no row but those it selected |
| `Keystore.KeyService.SecureAfterGenerate` | backend/keystore.py:139-169 | the key goes to the vault exactly when the policy asks, it can be read and the vault stores it; then the host file is gone as far as the helper shreds, and the row leads to the vault; otherwise host and row stay; every store passed through is one of the model |
| `Keystore.KeyService.FetchForJob` | backend/keystore.py:172-195 | which key is returned, from the vault or the host; a one-time key is destroyed there, as far as the vault lets it, and its row struck off; nothing else changes |
| `Keystore.KeyService.FetchByName` | backend/keystore.py:198-209 | goes through the job that carries the name if there is one, else reads the host and changes nothing |
| `Keystore.KeyService.MigrateHostKeys` | backend/keystore.py:212-242 | the loop is the sweep of the model, with its counters; when reads, writes and shreds work, none fails and none of the keys is left on the host |
| `Keystore.KeyService.MigrateOne` | backend/keystore.py:227-240 | one row: its flag is cleared exactly when no key can be read; else, exactly when the vault stores, the key is in the vault under the job, off the host if the helper shreds, and the row leads there; a refused move changes neither host nor row |
| `Keystore.SweepWorks` | backend/keystore.py:212-242 | when reads, writes and shreds work, a sweep over any rows fails on none and leaves no key it selected on the host: each is in the vault under its job, as it was |
| `Keystore.KeyService.DeleteOrphanKey` | backend/routes_admin.py:484-498 | deletes the file, and nothing else, exactly when no row carries the name and the helper works |
| `KeyCustody.SecureKeeps` | backend/keystore.py:139-169 | every step of securing a key keeps every key on the host or in the vault |
| `KeyCustody.MigrateKeeps` | backend/keystore.py:227-240 | so does every step of moving one key |
| `KeyCustody.FetchKeeps` | backend/keystore.py:172-195 | so does every step of a fetch, but for a one-time key being handed out |
| `KeyCustody.SweepKeeps` | backend/keystore.py:212-242 | so does every step of a sweep over any rows |
| `KeyCustody.NeverLost` | backend/keystore.py:139-242 | wherever any operation stops, and however the vault answers, each key is on the host under its name or in the vault under its job, unless it was handed out for its one time |
| `KeyRuns.NeverLostInRun` | backend/keystore.py:139-242 | the same over every run of operations, each cut anywhere |
| `KeyRuns.BoundaryLeads` | backend/keystore.py:139-242 | after every completed operation each flagged job leads to the key it was created with |
| `KeyRuns.BoundaryLeadsInRun` | backend/keystore.py:139-242 | the same over every run of completed operations |
| `KeyRuns.OrphanLeads` | backend/routes_admin.py:484-498 | orphan deletion leaves every job that led to its key leading to it |
| `KeyRuns.FlagsStay` | backend/keystore.py:229-231 | with a helper that fails only on absent files, no flag is cleared but that of a key handed out for its one time |
| `KeyRuns.FetchHandsOwn` | backend/keystore.py:172-195 | a fetch hands out the key of the job it was asked for or nothing |
| `KeyRuns.FetchFinds` | backend/keystore.py:172-195 | and does hand it out while the job is flagged and the stores answer |
| `KeyRuns.OncePhase` | backend/keystore.py:183-189 | one operation takes a job stored for one fetch to itself or to handed over, returning its key only on that change |
| `KeyRuns.AtMostOnce` | backend/keystore.py:172-242 | over any run of calls that follow each other, however cut and whatever the vault does, at most one returns a key stored for one fetch |
| `KeyOverlap.AloneIsFetch` | backend/keystore.py:172-195 | the four steps of a fetch, not interrupted, are the fetch of the sequential runs |
| `KeyOverlap.LateFetchGetsNothing` | backend/keystore.py:177-190 | once a fetch has ended, one that begins returns nothing, whatever those still under way do |
| `KeyOverlap.OverlapReturnsAll` | backend/keystore.py:177-190 | n fetches that all read before any writes all return the one-time key, even when the vault destroys it at the first request |
| `KeyOverlap.OverlapOnce` | backend/keystore.py:177-190 | however the steps of n fetches interleave, at most one returns the key, if and only if n is at most 1 |
| `KeyRuns.SweepTakes` | backend/keystore.py:212-242 | a sweep shrinks the host-stored jobs by exactly scanned minus failed; migrated + failed is at most scanned |
| `KeyRuns.Drains` | backend/keystore.py:212-242 | without vault failures k sweeps leave n - k * limit jobs, none exactly when k * limit reaches n |
| `ExpiryWarnings.TiersDecrease` | backend/routes_admin.py:1162-1204 | over any passes, clocks and mail failures the tiers sent for one job strictly decrease |
| `ExpiryWarnings.AtMostThree` | backend/routes_admin.py:1162-1204 | so at most three are sent, fewer once one is recorded, by passes that follow each other |
| `ExpiryWarnings.LevelByTime` | backend/routes_admin.py:1174-1178 | the tier of a pass by the time left: 30 from 15 days, 14 from 8, 7 below |
| `ExpiryWarnings.WarnExactly` | backend/routes_admin.py:1162-1204 | by the seconds left: a pass records a tier for an issued job exactly when it expires after now and within 30 days, was not warned or at a wider tier, and the mail is delivered; it counts an error exactly when such a mail or its webhook raises |
| `ExpiryWarnings.EveryTierSent` | backend/routes_admin.py:1162-1204 | passes at most 7 days apart send exactly 30, 14, 7 |
| `ExpiryWarnings.SkipsMiddleTier` | backend/routes_admin.py:1162-1204 | for every longer gap, a schedule that sends 30 and 7 only |
| `ExpiryWarnings.SevenDaysIsTheLimit` | backend/routes_admin.py:1162-1204 | a gap sends every tier under every schedule if and only if it is at most 7 days |
| `ExpiryWarnings.OverlapCost` | backend/routes_admin.py:1164-1197 | however the steps of overlapping passes mix, n mails of one job among them exceed the bound by at most n - 1 |
| `ExpiryWarnings.OverlapCostReached` | backend/routes_admin.py:1164-1197 | and n passes at once exceed it by exactly n - 1 |
| `ExpiryWarnings.OverlapBound` | backend/routes_admin.py:1164-1197 | the bound of three survives n mails of mixed passes if and only if n is at most 1 |
| `FleetWarnings.PassKeepsCredit` | backend/routes_admin.py:1218-1260 | a pass that mails for a fingerprint uses up one of the mails still possible, at the tier of the time left |
| `FleetWarnings.ChangeKeepsCredit` | backend/import_certs.py:180-213 | an import, issuance or deletion adds at most one possible mail, and only by a join |
| `FleetWarnings.JoinMeans` | backend/import_certs.py:180-213 | a join puts an unwarned row under a fingerprint it was not under, or tracks it anew; any other import leaves the tier |
| `FleetWarnings.FleetMailBound` | backend/routes_admin.py:1206-1267 | over any run of imports, issuances, deletions and passes that follow each other one fingerprint causes at most 3 mails plus one for each row that joined it with its tier reset |
| `FleetImport.ImportResets` | backend/import_certs.py:179-213 | after any records, a row is there exactly when it was or a record named it; its tier is kept unless a record found another certificate there, and then reset |
| `FleetImport.Monitor.ImportRecord` | backend/import_certs.py:151-213 | one record: counted once, as bad, a CA left out, added, renewed or updated, each exactly by its cause; the row then has the fingerprint and expiry of the certificate and keeps its address, and its tier exactly under the same fingerprint |
| `FleetImport.FileNameRead` | backend/import_certs.py:168-178 | the file name compared with the certificate is what follows the directory, less a certificate extension in any case of letters |
| `FleetImport.Monitor.ImportRecords` | backend/import_certs.py:151-213 | the loop gives the table after all records; the counters account for every record, every new row and every file named after a host its certificate does not name |
| `FleetImport.Monitor.PruneHost` | backend/import_certs.py:217-223 | drops exactly the rows of the host whose path was not seen, and counts them |
| `FleetImport.Monitor.ImportCerts` | backend/import_certs.py:123-230 | the table after import and pruning; a row is there exactly when an accepted record named it, or it was there and its host is not pruned; the size grows by added minus pruned |
| `FleetImport.Monitor.TrackIssued` | backend/app.py:2106-2139 | an issued certificate joins its fingerprint under the path of its job, unwarned, with its expiry and address; one that cannot be parsed changes nothing |
| `FleetImport.Monitor.WarnJob` | backend/routes_admin.py:1173-1204 | one row, by the seconds left: sent and its tier recorded exactly when due and delivered, and the error counted exactly when mail or webhook raised |
| `FleetImport.Monitor.WarnJobs` | backend/routes_admin.py:1162-1204 | the whole pass: every row as the model says, and the counters are the numbers of jobs mailed and failed |
| `FleetImport.Monitor.WarnGroup` | backend/routes_admin.py:1223-1260 | one fingerprint: one mail, and the tier on every row of its group; an error exactly when mail or webhook raised |
| `FleetImport.Monitor.WarnFleet` | backend/routes_admin.py:1206-1267 | the loop over the groups is the pass of the model, which `PassExactly` and `PassOtherwise` describe; it counts one mail for each fingerprint mailed and one error for each whose mail or webhook raised |
| `FleetImport.PassExactly` | backend/routes_admin.py:1206-1267 | a fingerprint that expires after now and within 30 days, with a row unwarned or warned at a wider tier, and a signer or a row with an address: when the mail is delivered every row gets the tier of the seconds left and it is counted once, otherwise no row changes; an error is counted exactly when mail or webhook raise |
| `FleetImport.PassOtherwise` | backend/routes_admin.py:1206-1267 | a fingerprint that expires otherwise, whose rows were all warned at the tier or a closer one, or that has neither an address nor a signer, is neither mailed nor counted, and none of its rows changes |
| `JobLifecycle.StatementKeeps` | backend/app.py:2157-2180 | each statement, if what was checked still holds, keeps the invariant and moves rows only onward |
| `JobLifecycle.LifecycleKept` | backend/app.py:2157-2183 | in every reachable state a certificate is there exactly when the job is issued, expired or revoked, and has the key of the CSR; over every run certificates are written once and closed jobs stay closed |
| `JobLifecycle.CertificateFitsRequest` | backend/app.py:2157-2183 | in every state reached from an empty table, a certificate is there exactly when the job is issued, expired or revoked, its public key is the one of the request, both being known, and the job expires when it does |
| `JobLifecycle.EveryStatusEarned` | backend/routes_jobs.py:13-29 | a status other than pending came from its own statement; a job expires only by a sweep after its certificate's end |
| `JobLifecycle.NoRenewalCycle` | backend/routes_jobs.py:780-793 | no path of renewed_from links returns to its start |
| `JobLifecycle.LateAttach` | backend/app.py:2159-2180 | the update of an attach whose read is stale keeps the lifecycle if and only if the job is still pending, gone, or issued with that very certificate |
| `JobLifecycle.LateRevoke` | backend/routes_signing.py:211-240 | the update of a revocation whose read is stale keeps it if and only if the job has not expired since |
| `JobLifecycle.CancelledThenIssued` | backend/app.py:2159-2180 | a cancellation between the two statements is undone |
| `JobRaces.InterleavingsKeep` | backend/routes_jobs.py:641-662 | every interleaving of cancel, bulk cancel and mark failed with all other statements keeps the lifecycle |
| `JobRaces.OneWinner` | backend/routes_jobs.py:656-662 | whatever the interleaving, at most one request is told it closed a job, exactly one if the job ends cancelled or failed, none otherwise |
| `JobRaces.ExactlyOneWinner` | backend/routes_jobs.py:936-957 | a pending job named by a finished request that may withdraw it ends withdrawn with exactly one winner, unless it was issued or deleted meanwhile |
| `JobRaces.AllReported` | backend/routes_jobs.py:934-983 | at every step each id of a request is either still to do or in exactly one of its lists, as often as it was given |
| `JobTable.Jobs.Withdraw` | backend/routes_jobs.py:641-662 | select, check and guarded update beside other requests are the two turns of the interleaving model, and the answer is the list the id goes to; denied exactly to one who is not a signer, or neither admin nor requester of a pending job; closed only from pending |
| `JobTable.Jobs.BulkCancel` | backend/routes_jobs.py:918-989 | the loop is a request of the interleaving model, run to its end, whatever runs in between |
| `JobTable.Jobs.SweepExpired` | backend/routes_jobs.py:13-29 | logs exactly the issued jobs whose end has come; each is expired afterwards, or was revoked or deleted in between, and no job past its end is left issued |
| `JobTable.Jobs.AttachSignedCert` | backend/app.py:2157-2180 | completes exactly a job that was pending and whose request and certificate have the same known key, each refusal by its cause; the row then carries the certificate and its end; the table may change before the update, and the lifecycle is kept if and only if the job is then still pending, gone, or issued with that certificate |
| `JobTable.Jobs.RevokeJob` | backend/routes_signing.py:200-240 | revokes exactly an issued job, for a signer or admin, at a backend that supports it and agrees, each refusal by its cause; the table may change meanwhile, and the lifecycle is kept if and only if the job has not expired |
| `JobTable.Jobs.MayRenew` | backend/routes_jobs.py:711-727 | each refusal of a renewal by its cause, and none otherwise |
| `JobTable.Jobs.RenewJob` | backend/routes_jobs.py:700-793 | after a sweep, goes ahead exactly for an issued or expired job, for its requester, its group or an admin with an address; a renewal leaves one new pending job linked to a job that has a certificate, whatever ran meanwhile; a refusal changes nothing |
| `Login.Accounts.AuthLogin` | backend/routes_auth.py:60-112 | logs in exactly with local login, both fields given, a known account with a password, not locked, not pending, active, and the right password; each refusal by its cause; only a wrong password and a success change the account |
| `Login.Accounts.AdminSetPassword` | backend/routes_admin.py:166-192 | sets the password of a known account and lifts its lockout, and changes nothing else |
| `Login.LockoutBound` | backend/routes_auth.py:83-98 | without success or reset an account takes at most max(1, 5 - attempts) + floor(T / 900), hence 5 + floor(T / 900), wrong passwords in T seconds |
| `Login.BoundReached` | backend/routes_auth.py:83-98 | a schedule of attempts that reaches the bound, for every unlocked account and length |
| `Login.OverlapCountsOnce` | backend/routes_auth.py:74-98 | wrong attempts that all read before any writes leave the account as one of them does |
| `Login.OverlapCost` | backend/routes_auth.py:74-98 | however the reads and writes of n evaluated attempts mix, stale writes after a lockout included, they exceed the bound of the whole stretch by at most n - 1 |
| `Login.OverlapCostReached` | backend/routes_auth.py:74-98 | and n at once, followed by the fastest guesser, exceed it by exactly n - 1 |
| `Login.OverlapBound` | backend/routes_auth.py:74-98 | the bound survives n mixed attempts on an unlocked account if and only if n is at most 1 |
| `DomainQuota.Licence.EnforceDomainQuota` | backend/sign.py:86-113 | refuses exactly when there is a cap, a domain is new, and the union exceeds the cap, naming the new domains; else claims all when there is a cap |
| `DomainQuota.Licence.SignCsr` | backend/sign.py:714-745 | the gates in order, each refusal by its cause; nothing is claimed before the quota gate; a CSR that passes every gate is signed exactly when the backend works, and its claim stays when it fails |
| `DomainQuota.OneRequest` | backend/domains.py:80-96 | refused exactly when a new domain would exceed a cap; a refusal changes nothing; a pass covers the CSR |
| `DomainQuota.LicensedWithinCap` | backend/sign.py:86-113 | over any run the set only grows, and its size stays within the larger of its first size and the largest cap |
| `DomainQuota.CoveredForGood` | backend/sign.py:86-113 | a CSR once passed under a cap passes again after any run, however low the cap |
| `DomainQuota.InterleavedWithinCap` | backend/sign.py:103-113 | whatever the interleaving of the reads and writes of any requests, the set stored stays within the larger of its first size and the largest cap |
| `DomainQuota.OverlapKeepsClaim` | backend/sign.py:103-113 | of two requests that both read before either writes, the first claim survives if and only if the second adds no domain or covers it; the second always does |
| `DomainQuota.OverlappingClaims` | backend/sign.py:104-113 | two first requests that overlap pass under a cap of one, and the earlier write is forgotten |
| `Usernames.DecimalInjective` | backend/app.py:1164-1167 | different suffix numbers are written differently |
| `Usernames.DecimalReads` | backend/app.py:1164-1167 | a suffix number is written in decimal: digits only, no leading zero, and reading them gives the number back |
| `Usernames.TakenIsExact` | backend/app.py:1151-1161 | a candidate is among the rows the query selects if and only if any row of the table occupies it, by username or by local key |
| `Usernames.DeriveUsername` | backend/app.py:1136-1167 | returns the smallest candidate free in the whole table, within one more probe than taken names |
| `Usernames.FitsExactly` | backend/routes_admin.py:130-138 | a username fits exactly when it is the names, joined by a dot when both are there, and then digits or nothing |
| `Usernames.PlainNames` | backend/app.py:1129-1148 | two plain names give both in lower case with a dot between, no names give user |
| `Usernames.ResaveKeepsName` | backend/routes_admin.py:130-138 | saving the same names again keeps every username derived from them if and only if the names were not cut to 60 characters |
| `Usernames.ConstraintsGuard` | backend/routes_auth.py:191-208 | the two constraints admit a local row exactly when its name is free in both places |
| `Usernames.AdmittedRow` | backend/app.py:1680-1687 | a username the unique index admits keeps rows apart exactly when no local key holds it |
| `Usernames.UncheckedKey` | backend/app.py:1674-1687 | a key added without a check keeps names apart exactly when its local name is free |
| `Usernames.Users.InsertLocal` | backend/routes_auth.py:196-206 | inserts exactly when the name is free |
| `Usernames.Users.Register` | backend/routes_auth.py:176-211 | whatever runs between search and insert, each name tried was the smallest free one in the table searched, and the name assigned was free in the table the insert met and belongs to the new row alone; none is assigned only when each of five names was taken by the time of its insert |
| `Usernames.Users.AdminCreate` | backend/routes_admin.py:232-242 | alone, always succeeds with the smallest free name |
| `Usernames.Users.UpsertUser` | backend/app.py:1649-1698 | adds a row for a new identity only; it has a username, the smallest free one, exactly when a card gave names; with other requests in between, a clash adds nothing, and the new row shares no name exactly when no local key took it |
| `Usernames.Users.Rename` | backend/routes_admin.py:120-143 | exactly a user without names given, or whose username fits them, is kept; any other gets the smallest free name; with other requests in between, the unique index refuses a username another row has, and otherwise rows share no name exactly when no other local key took it |
| `Text.KeepEach` | backend/csr_subject.py:96-117 | filtering keeps a character exactly when it is in the set, in its place |
| `Text.LowerMeans` | backend/csr_subject.py:120-127 | two spellings count as one exactly when they differ in the case of letters only |
| `CsrSubject.SanitizeTwice` | backend/csr_subject.py:96-117 | a cleaned value has allowed characters only; cleaning it again strips it and does nothing else |
| `CsrSubject.Reduced` | backend/csr_subject.py:96-117 | of a trimmed line the allowed characters stay, in order, and of those the first 128; a line break counts as a space |
| `CsrSubject.ListCleaned` | backend/csr_subject.py:120-138 | a cleaned list has no empty item and no two spellings of one; cleaning it again changes nothing exactly when it is trimmed |
| `CsrSubject.ListComplete` | backend/csr_subject.py:120-138 | a cleaned list of fewer than 16 items has dropped no value: each is there in the first spelling given, in the order given |
| `CsrSubject.DnCleaned` | backend/csr_subject.py:139-146 | the same for custom attributes |
| `CsrSubject.DnComplete` | backend/csr_subject.py:139-146 | fewer than 16 cleaned attributes have dropped none whose field and value survive, and keep their order |
| `CsrSubject.CleanIsSafe` | backend/csr_subject.py:130-166 | every value, list and attribute of a cleaned configuration is within the whitelist and the limits |
| `CsrSubject.CleanSettles` | backend/csr_subject.py:130-166 | two applications settle; one does exactly when it leaves every value trimmed |
| `CsrSubject.CleanOnceIsNotEnough` | backend/csr_subject.py:100-102 | a family of values for which one application is not enough |
| `SubjectConf.LinesRead` | helper/certheim_helper.d/00-common.sh:52-69 | reading the rendered lines one by one gives every value and list back, in order |
| `SubjectConf.RenderRoundTrip` | backend/csr_subject.py:169-187 | the helper reads the rendered text back as the cleaned configuration, whatever its variables held |
| `SubjectConf.EmptyItemIgnored` | helper/certheim_helper.d/00-common.sh:52-69 | a list entry without a value adds nothing |
| `SubjectConf.CleanItems` | backend/csr_subject.py:120-127 | the loop with its set of seen spellings is the cleaned list |
| `SubjectConf.CleanConfig` | backend/csr_subject.py:130-166 | the whole cleaning, loop by loop |
| `SubjectFile.RenderedIsAccepted` | helper/certheim_helper.d/00-common.sh:164-173 | the helper's whitelist accepts every rendered configuration it does not cut |
| `SubjectFile.LineGrammar` | helper/certheim_helper.d/00-common.sh:165-167 | a line is allowed exactly when it is empty or a key, an equals sign and a value in its whitelist; an attribute is a non-empty field, a colon and a value |
| `SubjectFile.WhitelistsAgree` | helper/certheim_helper.d/00-common.sh:165-167 | the helper's character classes are the dashboard's |
| `SubjectFile.CutIsAccepted` | helper/certheim_helper.d/00-common.sh:164-173 | a rendered text, cut or not, is accepted exactly when the line cut in the middle, if any, is one the helper allows |
| `SubjectFile.CutFileDiffers` | helper/certheim_helper.d/00-common.sh:164 | what the helper reads back is the cleaned configuration if and only if the text was within its limit |
| `SubjectFile.FullIsCut` | backend/csr_subject.py:169-187 | a clean configuration of 9804 characters, which the helper cuts and accepts |
| `SubjectFile.StoredAndReadAgree` | backend/routes_admin.py:912-927 | the stored settings and what the helper reads agree if and only if the text was within the limit and every stored value is trimmed |
| `SubjectFile.SubjectAdmin.PutCsrSubject` | backend/routes_admin.py:909-930 | a failure stores nothing; it saves exactly when the helper works and allows the line cut in the middle, if any; then the settings are the configuration cleaned once, the file reads as cleaned twice exactly within the limit, and as the settings exactly when these are trimmed too |
| `HostRollup.PartsAddUp` | backend/routes_jobs.py:156-161 | counts that split the rows between them add up to the whole |
| `HostRollup.BestIsGreatest` | backend/routes_jobs.py:163-179 | the current certificate is a live issued job of the host above which there is none, no expiry ranking highest |
| `HostRollup.LastActivityIsLatest` | backend/routes_jobs.py:162 | last activity is the creation time of a row of the host, or zero, and no row of the host is later |
| `HostRollup.CurrentIsARow` | backend/routes_jobs.py:163-180 | the certificate shown has the id, expiry and issue time of a live issued row of the host, and no live row expires later |
| `HostRollup.ListJobHosts` | backend/routes_jobs.py:154-179 | the one-pass loop gives every host once, with the totals, counts, current certificate and last activity of the declarative view, and totals that add up to the rows |
| `HostRollup.TotalsAddUp` | backend/routes_jobs.py:160 | the total fields of the hosts listed add up to the number of rows |
| `HostRollup.CountsAddUp` | backend/routes_jobs.py:161 | the counts of a host's statuses add up to its total |
| `HostRollup.OlderAreTheOthers` | backend/routes_jobs.py:194 | older_valid counts the live rows besides the current one |
| `HostRollup.HealthMeans` | backend/routes_jobs.py:183-193 | health by the seconds left of the certificate shown: critical below 8 days, a warning below 31; without a live one, pending exactly when a request waits, else expired |
| `HostRollup.OrderDoesNotMatter` | backend/routes_jobs.py:183-195 | health and counts are the same for every order of the rows |
| `DbMigrate.CopyKeepsRows` | backend/db_migrate.py:63-96 | without wiping no row of the target is changed or lost |
| `DbMigrate.ProjectedRow` | backend/db_migrate.py:75-87 | a copied row has the source's values in the columns both sides have, and the target's defaults in its others |
| `DbMigrate.SecondInsert` | backend/db_migrate.py:84-87 | inserting rows again changes nothing if and only if a unique constraint binds each |
| `DbMigrate.CopyTwice` | backend/db_migrate.py:63-96 | the same for a second copy of a whole table |
| `DbMigrate.SharedKeyIsIdempotent` | backend/db_migrate.py:63-96 | with a key of shared columns that no source row leaves null, a second copy changes nothing |
| `DbMigrate.NullKeyCopiedTwice` | backend/db_migrate.py:84-87 | a row without its key is copied twice |
| `DbMigrate.WipedCopyMirrors` | backend/db_migrate.py:82-87 | a wiped copy equals the projected source if and only if no two projected rows conflict |
| `DbMigrate.SourceKeysMirror` | backend/db_migrate.py:82-87 | if the target's keys are columns of both sides, and any two source rows differ on each or the later leaves it null, a wiped copy mirrors them |
| `DbMigrate.ConflictDropsRow` | backend/db_migrate.py:82-87 | two rows that agree on a key of the target: a wiped copy loses one |
| `DbMigrate.NextIdIsFree` | backend/db_migrate.py:89-96 | after a copy the next generated id exceeds every id in the table; of the table before, this asks so only when its rows stay and, on PostgreSQL, none is copied |
| `DbMigrate.Target.CopyTable` | backend/db_migrate.py:75-96 | the inserts of one table and its sequence are the copy of the model |
| `DbMigrate.Target.CopyDatabase` | backend/db_migrate.py:63-100 | every table but schema_migrations that both sides have with a column in common is copied, no other is touched, and the counts are of the rows read |

## Left out

- Waits between polls, request bodies and signatures, the account key, external account binding and
  `AcmeClient.test`: they do not change what is sent when.
- `secure_after_generate`'s policy (`effective_mode`) and `purge_for_job`: the mode is a parameter; purging destroys a
  key on purpose.
- `registrable_domain` and the parsing of CSRs: the set of domains a CSR names is a parameter.
- `_ttl_bounds`, the creation form, deletion of files, delivery, audit events, webhooks and notification mail beside
  the expiry warnings.
- The sort of the host list, its SANs, and the filter by query or visibility.
- Tables whose rows get a generated value for a column the source lacks, constraint failures other than uniqueness, and
  a copy that stops half-way: columns missing in the source take a constant default.
- Login.Accounts.AdminSetPassword: does not model the password policy and the administrator's gate, which come before it.
- FleetWarnings.FleetMailBound: does not model fleet passes that overlap; each could mail the group once, as for jobs.
- The signing queue's zip names, auto-renewal, the inventory alerting that can replace the warning pass, and the
  signing backends.
