# Verified model of UniFi Insights

A Dafny model of the stateful core of the UniFi Insights integration for Home Assistant, with proofs about every
run, every interleaving and every input. Each module models one component:

- `SiteIdentity`, `Rekey`, `RekeyEntities`, `SiteMigration`: the registry identities of logical sites. When a console
  changes its identity, all site rows of its entry are re-keyed in a transaction: preflight, an update pass in which
  any call may raise before or after changing its row, and a compensating rollback.
- `ConfigFlow`, `AccessMove`: saving a changed connection across two stores, and moving the Access webhook with it.
- `AccessWebhook`: signed deliveries, the freshness window and the fail-closed replay cache.
- `InnerSpace`, `InnerSpaceView`, `InnerSpaceSnapshot`, `InnerSpaceMemo`: matching floor-plan records to devices by
  MAC, through indexes, in records shared between sections, memoized by a key.
- `Talkback`, `FloorPlanImage`: two asynchronous entities, as atomic steps between awaits.
- `RuleExport`, `ExportSecrecy`, `ExportShape`, `ExportShown`, `MacPseudonyms`: redacting a rule export, what it hides and
  what it shows, and the numbering of MACs.
- `SetupProbes`, `DirectedBroadcast`, `DigitalInputs`, `RuleChanges` with `RuleAudit`, `ClientTrackers`: retry budgets,
  broadcast addresses, an ID codec, event delivery and the reconciliation of trackers with the registry.
- `Text`, `EntityRegistry`, `ConfigEntries`: Python strings and the parts of Home Assistant the rest relies on.

`EntityRegistry.Registry.UpdateUniqueId` is the source of failures: it refuses an occupied identity and may otherwise
raise before or after it changed the row. Its ghost trace records every call, which is how statements about every
intermediate state are made. `ConfigEntries.EntryStore.Save` may likewise raise after changing either field.

Objects the integration updates in place are classes, and their methods are proved against functions of the old state;
whole runs are sequences over those functions. Verify with `dafny verify dfyconfig.toml`.

## Where code and documentation differ

- The correlation key's docstring says that equal keys correlate alike. A polled site without devices narrows matching
  but leaves no trace in the key. Device IDs such as 1 and True compare equal but render differently; a record of the
  legacy device list keeps whatever JSON value arrives as its `id` (`coordinators/device.py:990-1002`).
  `InnerSpaceMemo.MemoKeyDetermines` states exactly when equal keys suffice; two lemmas give the counterexamples.
- The planning docstring says a move removes the stored registration first. If webhook settings are stored without a
  token they are carried to the new server instead (`AccessMove.MoveDropsWebhook`, `AccessMove.StaleWebhookExample`).
- The event entity is documented to fire once for each change. Of a refresh that finds more than a hundred changes on
  one site only the newest hundred fire (`RuleAudit.FiresUnlessBurst`), which the tracker logs.
- In the coordinator's snapshot an access point whose ID a switch repeats is never matched in the access point section
  (`InnerSpaceSnapshot.NormalizeSnapshot`); the published view does match it (`InnerSpaceView.BuildView`).
- The replay cache's docstring says it admits each authentic digest once while its timestamp is in the window. It does
  exactly until the admission lapses, that is until an authentic delivery arrives at a time past the window
  (`AccessWebhook.RefusedUntilLapsed`, `AccessWebhook.AdmittedAgain`). A replay can then still be authentic only if the
  clock runs back afterwards (`AccessWebhook.LapseNeedsClockBack`, `AccessWebhook.ReplayAfterClockRanBack`).

## Model

| member | source | states |
|---|---|---|
| SiteIdentity.NormalizedIsNamespace | custom_components/unifi_insights/console_identity.py:73-95 | What the normalizer accepts is its own normal form, non-empty, printable and free of spaces, for every value and credential list. |
| SiteIdentity.NamespaceIsNoCredential | custom_components/unifi_insights/console_identity.py:73-95 | No accepted namespace equals a credential, raw or normalized. |
| SiteIdentity.NamespaceOfPlain | custom_components/unifi_insights/console_identity.py:73-95 | A printable, space-free text, whatever spaces surround it, is accepted in lower case with colons for dashes, exactly unless a credential is the value or has the same normal form. |
| SiteIdentity.NoNamespace | custom_components/unifi_insights/console_identity.py:73-95 | A text that is empty, or not printable or space-free, between its surrounding spaces is no namespace. |
| SiteIdentity.SuffixFreeFamilies | custom_components/unifi_insights/const.py:11-42 | Within a domain no declared suffix ends in `_` and another declared suffix. |
| SiteIdentity.LegacyIdDecodesUniquely | custom_components/unifi_insights/console_identity.py:106-116 | `{site}_{suffix}` determines site and suffix for all site strings, underscores included. |
| Rekey.JudgedRename | custom_components/unifi_insights/console_identity.py:364-383 | A row judged to move is exactly `{old}_{site}_{key}` with a non-empty site and a declared key that its metadata repeats. |
| Rekey.NamedRowIsRenamed | custom_components/unifi_insights/console_identity.py:364-383 | Conversely every such row is judged to move, with exactly that site and key, whatever characters the site contains. |
| Rekey.Verdicts | custom_components/unifi_insights/console_identity.py:361-383 | Each verdict of the preflight on a row, read off the row: it names a site under the namespace, it lacks metadata a site row must have, or its metadata contradicts its identity. |
| Rekey.MovedUnique | custom_components/unifi_insights/console_identity.py:383-393 | For a safe plan, moving any subset of the planned rows keeps (domain, platform, unique ID) unique. |
| Rekey.RestoreOne | custom_components/unifi_insights/console_identity.py:297-325 | Undoes one row only if it is still the captured row, still the entry's, at its target and its old identity free; otherwise changes nothing; true exactly if the row was back already or the undo did not raise. |
| Rekey.RunOnlyUndoes | custom_components/unifi_insights/console_identity.py:296-325 | Under any interference, every row a rollback changes was ours, at its target, and ends with its captured identity; all other rows stay. |
| Rekey.FullRunCompensates | custom_components/unifi_insights/console_identity.py:296-328 | From any mid-transition state the reverse rollback leaves moved exactly the rows whose undo raised unchanged, and returns True exactly if no undo raised, then with the pre-state. |
| Rekey.RestoreIdentities | custom_components/unifi_insights/console_identity.py:288-328 | The loop does all of the above on the registry, with identities unique after every call. |
| RekeyEntities.DecidedNamespaces | custom_components/unifi_insights/console_identity.py:339-360 | Both namespaces of an attempted change are in normal form, and they differ. |
| RekeyEntities.DecidedExactly | custom_components/unifi_insights/console_identity.py:339-360 | A change is attempted from `o` to `n` exactly if `o` is the normal form of the stored identity and survives the pending key, `n` is that of the new one, and they differ; both refusals have their exact conditions, and anything else is nothing to do. |
| RekeyEntities.BlockedExactly | custom_components/unifi_insights/console_identity.py:361-387 | A change is blocked exactly if a row of the entry lacks metadata, contradicts it, or names a site whose new identity is taken. |
| RekeyEntities.CheckRows | custom_components/unifi_insights/console_identity.py:361-387 | The preflight refuses exactly if some row of the entry has missing or ambiguous metadata or an occupied target; else it lists every moving row once. |
| RekeyEntities.UnblockedPlanIsSafe | custom_components/unifi_insights/console_identity.py:361-387 | A passed preflight means every target is free and, prefix replacement being injective, asked for once. |
| RekeyEntities.TargetFree | custom_components/unifi_insights/console_identity.py:389-393 | At each update of the pass the target is held by no other row, although earlier rows have moved already. |
| RekeyEntities.UpdatePass | custom_components/unifi_insights/console_identity.py:389-397 | The pass alone, on a safe plan: every row moved and nothing raised, or a raise and everything rolled back except rows whose undo raised unchanged. |
| RekeyEntities.RekeySiteEntities | custom_components/unifi_insights/console_identity.py:331-397 | All or nothing. On success each entry row that names a site under the stored namespace, with its metadata, names it under the new one, and no other row changed. A refusal touches nothing, has a true reason, and comes whenever something stands in the way. A raise is rolled back to the pre-state unless a compensating call raises. Unique at every call, none refused. |
| RekeyEntities.CompletedChange | custom_components/unifi_insights/console_identity.py:363-393 | A completed change is one function of the rows, whatever the order of updates. |
| RekeyEntities.MovedRowKeepsSite | custom_components/unifi_insights/console_identity.py:363-393 | A moved row changes only its unique ID, and reads back as the same site and suffix under the new namespace. |
| RekeyEntities.RekeyedUnique | custom_components/unifi_insights/console_identity.py:363-393 | An unblocked change preserves uniqueness of the whole registry. |
| RekeyEntities.ThereAndBack | custom_components/unifi_insights/console_identity.py:363-393 | Changing the namespace and back is the identity exactly if no row of the entry carried the new namespace before. |
| SiteMigration.HolderDecides | custom_components/unifi_insights/console_identity.py:204-231 | With unique identities, the one holder decides ownership, so looking it up is complete. |
| SiteMigration.SelectOwned | custom_components/unifi_insights/console_identity.py:193-231 | Selects the legacy identity if owned, nothing if its row is ambiguous or the target another's, else the target. |
| SiteMigration.MigrateSiteEntity | custom_components/unifi_insights/console_identity.py:234-278 | Without a failure the rows decide: an owned legacy row moves to a free target and stays under its old identity otherwise; without one, an unlabelled or foreign row forbids building, else the target is built. A malformed namespace propagates before anything is touched. After a failed update the error propagates or the identity the row now has is used. No other row changes, whatever fails. |
| ConfigFlow.UpdateSiteEntry | custom_components/unifi_insights/config_flow.py:859-911 | The two-store saga: success re-keys the rows from the stored namespace to the new one and saves the entry; a rejected identity, with its reason, touches neither; after a failed save the registry rollback always runs and, unless the entry is gone, claimed or its restore raises, both stores are as before. |
| ConfigFlow.AppliedThenRollback | custom_components/unifi_insights/config_flow.py:885-911 | After a pass without raises, only the rollback's own calls decide which rows stay moved. |
| AccessMove.RotationKeepsWebhook | custom_components/unifi_insights/config_flow.py:1028-1081 | A new token on the same server stores every webhook setting unchanged and asks for no cleanup. |
| AccessMove.MovedExactly | custom_components/unifi_insights/config_flow.py:135-138 | The server moved exactly if host name or port differ, 12445 standing for a missing port. |
| AccessMove.TypedBetweenSpaces | custom_components/unifi_insights/config_flow.py:385-390 | The typed token is what stands between surrounding spaces, none if that is nothing. |
| AccessMove.PlannedAccess | custom_components/unifi_insights/config_flow.py:1028-1081 | The form is refused exactly if a token must be validated and is not valid. Every accepted plan holds exactly the validated token, typed or else stored, with the form's port or the default; neither if they are cleared; the stored ones otherwise. |
| AccessMove.NewIdIs | custom_components/unifi_insights/config_flow.py:1093-1109 | The identity to save: the reported hardware address, else the stored identity if usable and no credential, else what else the console reports. |
| AccessMove.CheckAndRetire | custom_components/unifi_insights/config_flow.py:1110-1149 | A save aborts for two different hardware addresses, then for an identity another entry has, then for an endpoint not confirmed gone; retiring drops the stored receiver. |
| AccessMove.MoveDropsWebhook | custom_components/unifi_insights/config_flow.py:1028-1081 | Every accepted plan keeps each stored webhook setting exactly unless the token is cleared or the server moved with a stored token; a move with no stored token carries them over. A cleanup is asked for exactly if there are settings to retire and a token for it. |
| AccessMove.StaleWebhookExample | custom_components/unifi_insights/config_flow.py:1028-1081 | A concrete entry whose stale webhook settings a move carries over, whatever token is typed. |
| AccessMove.WebhookHost.DeleteEndpoint | custom_components/unifi_insights/access_webhook.py:398-416 | True only if the endpoint is gone; a failed or unanswered delete may or may not have removed it. |
| AccessMove.Unregister | custom_components/unifi_insights/access_webhook.py:361-365 | Exactly the stored receiver, if any, is unregistered. |
| AccessMove.DeleteStoredEndpoint | custom_components/unifi_insights/access_webhook.py:604-626 | True only if no stored endpoint exists on the console any more; true when none is stored, false without usable settings. |
| AccessMove.RemoveWebhook | custom_components/unifi_insights/access_webhook.py:629-657 | The receiver is unregistered at once, or, to keep it on failure, only once the endpoint is confirmed gone. |
| AccessMove.ReconfigureLocal | custom_components/unifi_insights/config_flow.py:1083-1168 | When it aborts, and for which reason; aborted with entry, registry and receiver untouched; saved with exactly the planned data; or failed, compensated as above and reloaded if a cleanup ran and the entry is still registered. |
| AccessMove.PlannedSettings | custom_components/unifi_insights/config_flow.py:1059-1081 | The whole data to save keeps the webhook settings under exactly that condition. |
| AccessMove.ReconfigureAccess | custom_components/unifi_insights/config_flow.py:1028-1168 | Plan and save together: a form error exactly if a token must be validated and is not valid; a saved entry holds exactly the connection typed, the Access token and port as planned, and the old webhook settings unless they had to be retired; retiring them by their token drops the receiver and, on a move, has confirmed the endpoint gone; otherwise receiver and endpoint are untouched. |
| AccessWebhook.ParseHeader | custom_components/unifi_insights/access_webhook.py:102-129 | Whatever is accepted has a timestamp of 1 to 12 digits and a lower-case 64-digit hexadecimal digest. |
| AccessWebhook.SplitIsJoin | custom_components/unifi_insights/access_webhook.py:102-129 | The parts of a header are what stands between its commas. |
| AccessWebhook.AcceptedHeader | custom_components/unifi_insights/access_webhook.py:102-129 | A header is read as a timestamp and a digest exactly if every part, stripped, has an `=`, and its first `t` and first `v1` are these and well-formed. |
| AccessWebhook.HeaderRoundTrip | custom_components/unifi_insights/access_webhook.py:102-129 | A well-formed `t=..,v1=..` header parses to its own fields, and whatever fields follow cannot change that. |
| AccessWebhook.MessageInjective | custom_components/unifi_insights/access_webhook.py:142-146 | The signed bytes determine timestamp text and body, because a timestamp is digits only. |
| AccessWebhook.Verify | custom_components/unifi_insights/access_webhook.py:132-158 | An authentic result is inside the freshness window; a rejection is never the replay cache's. |
| AccessWebhook.FirstFailure | custom_components/unifi_insights/access_webhook.py:132-158 | Exactly when a delivery is rejected for a missing secret, a malformed header or a wrong signature. |
| AccessWebhook.ToIntOfNumber | custom_components/unifi_insights/access_webhook.py:151-152 | The decimal digits of a number, with any leading zeros, read as that number. |
| AccessWebhook.ToIntOfConcat | custom_components/unifi_insights/access_webhook.py:151-152 | Place value: what comes before counts ten times per digit that follows. |
| AccessWebhook.DigitsAreNumber | custom_components/unifi_insights/access_webhook.py:151-152 | Every digit text is the decimal digits of some number with leading zeros. |
| AccessWebhook.SignedIsAuthentic | custom_components/unifi_insights/access_webhook.py:132-158 | A delivery signed under the stored secret with the text of a number t is stale exactly if now - t > 300, from the future exactly if t - now > 60, and authentic with timestamp t otherwise. |
| AccessWebhook.DigestIdentifiesRequest | custom_components/unifi_insights/access_webhook.py:132-158 | The same request verifies to the same result; unless the two deliveries collide, equal digests mean the same request. |
| AccessWebhook.ReplayCache.Check | custom_components/unifi_insights/access_webhook.py:176-186 | The purging loop keeps exactly the digests not yet expired, then refuses a known digest or a full cache and otherwise adds the digest with its expiry. |
| AccessWebhook.Handle | custom_components/unifi_insights/access_webhook.py:304-345 | Only an authentic, admitted delivery with a JSON object is dispatched and answered OK; 408, 413, 400, 401 and 503 each have their exact condition; no other path touches the cache. |
| AccessWebhook.Remembered | custom_components/unifi_insights/access_webhook.py:161-186 | Whatever the clock does, an admitted digest is cached until an authentic delivery arrives by whose time its timestamp is stale. |
| AccessWebhook.RefusedUntilLapsed | custom_components/unifi_insights/access_webhook.py:176-186 | An authentic delivery is refused as a replay exactly if an earlier admission of its digest has not lapsed, for every run and every clock. |
| AccessWebhook.AdmittedAgain | custom_components/unifi_insights/access_webhook.py:161-186 | A digest once admitted is admitted again exactly if its last admission has lapsed and the cache has room. |
| AccessWebhook.LapseNeedsClockBack | custom_components/unifi_insights/access_webhook.py:161-186 | While a request is still authentic its admission lapses only if the clock was ahead in between and ran back. |
| AccessWebhook.AdmittedOnce | custom_components/unifi_insights/access_webhook.py:161-186 | Hence with a clock that never runs back no request is admitted twice, nor, unless two requests collide, any digest. |
| AccessWebhook.CachedWasAdmitted | custom_components/unifi_insights/access_webhook.py:161-186 | Everything cached was admitted before, has not lapsed and expires 300 seconds after its own timestamp. |
| AccessWebhook.CacheBounded | custom_components/unifi_insights/access_webhook.py:161-186 | The cache never holds more than `size` digests, over any run. |
| AccessWebhook.RefusedAsReplay | custom_components/unifi_insights/access_webhook.py:176-186 | An authentic delivery that collides with none before it is called a replay exactly if the same request was admitted before and has not lapsed. |
| AccessWebhook.ReopensAfterSilence | custom_components/unifi_insights/access_webhook.py:161-186 | After more than 360 seconds without an admission every authentic delivery is admitted. |
| AccessWebhook.ReplayAfterClockRanBack | custom_components/unifi_insights/access_webhook.py:176-186 | A run of signed deliveries in which the clock runs back and one request is admitted twice, for every hash that tells its two messages apart. |
| InnerSpace.NormalizedIsFixed | custom_components/unifi_insights/innerspace_transforms.py:41-57 | A normalized MAC is its own normal form. |
| InnerSpace.SpelledMacNormalizes | custom_components/unifi_insights/innerspace_transforms.py:41-57 | Twelve hex digits of either case, with dashes, colons and dots anywhere and spaces around, normalize to their lower-case digits in pairs. |
| InnerSpace.NormalizesOnlySpelled | custom_components/unifi_insights/innerspace_transforms.py:41-57 | No other text normalizes. |
| InnerSpace.SameDigits | custom_components/unifi_insights/innerspace_transforms.py:41-57 | Two texts that normalize do so alike exactly if they have the same digits up to case. |
| InnerSpace.ColonsAt | custom_components/unifi_insights/innerspace_transforms.py:54-56 | The normal form has a colon after every two digits but the last. |
| InnerSpace.NetworkCandidate | custom_components/unifi_insights/innerspace_transforms.py:386-409 | A Network device is a candidate exactly if the first filled of its MAC fields normalizes, under its own ID or else its key, with its site and its type or else its model. |
| InnerSpace.ProtectCandidate | custom_components/unifi_insights/innerspace_transforms.py:413-442 | A Protect device is one likewise, without a site and by its collection. |
| InnerSpace.ScopeHolds | custom_components/unifi_insights/innerspace_transforms.py:498-521 | In scope are the Network devices of the record's site if that is listed, else of all sites, and all Protect devices. |
| InnerSpace.MatchIsUnambiguous | custom_components/unifi_insights/innerspace_transforms.py:496-541 | The matching rule gives a device exactly if it is the only one in scope with the record's MAC. |
| InnerSpaceView.IndexSite | custom_components/unifi_insights/innerspace_transforms.py:386-409 | Both indexes a site feeds answer every lookup as scanning its devices would. |
| InnerSpaceView.IndexNetwork | custom_components/unifi_insights/innerspace_transforms.py:376-410 | Each polled site's index and the global one answer every lookup as a scan of its devices would. |
| InnerSpaceView.IndexProtect | custom_components/unifi_insights/innerspace_transforms.py:413-442 | The same for all Protect collections. |
| InnerSpaceView.FoundIsScanned | custom_components/unifi_insights/innerspace_transforms.py:510-521 | The indexed lookup, narrowed or not, equals the plain scan in content and order. |
| InnerSpaceView.WantedIsOnly | custom_components/unifi_insights/innerspace_transforms.py:496-541 | A record is matched exactly to the only device in its scope with its MAC, the stored one or else the raw one normalized. |
| InnerSpaceView.WantedApplication | custom_components/unifi_insights/innerspace_transforms.py:523-539 | A match names Network exactly for a device with a site and Protect exactly for one of a collection. |
| InnerSpaceView.Write | custom_components/unifi_insights/innerspace_transforms.py:523-539 | All five match fields say the match; writing the match a record has changes nothing. |
| InnerSpaceView.MatchOf | custom_components/unifi_insights/innerspace_transforms.py:496-524 | What the indexes give for a record is what the plain scan says. |
| InnerSpaceView.CorrelateSection | custom_components/unifi_insights/innerspace_transforms.py:491-541 | Every record of a section gets its match, records shared with other sections stay matched, and a record already matched is not changed. |
| InnerSpaceView.CorrelateDevices | custom_components/unifi_insights/innerspace_transforms.py:445-541 | Over any sections with shared records: every record ends with its match, the result is that of the last record per ID, and correlating again changes nothing. |
| InnerSpaceView.CopySection | custom_components/unifi_insights/innerspace_transforms.py:620-634 | A copied section has the same IDs and, under each, a fresh record that reads the same. |
| InnerSpaceView.BuildView | custom_components/unifi_insights/innerspace_transforms.py:607-650 | Every record in `devices` agrees with `correlations`, which is the plain scan of the raw records; only fresh copies are written. |
| InnerSpaceSnapshot.Place | custom_components/unifi_insights/innerspace_transforms.py:696-721 | Placed records, last one per ID, each a record of its own. |
| InnerSpaceSnapshot.Unplaced | custom_components/unifi_insights/innerspace_transforms.py:723-733 | Inventory records, last one per ID, without the placed IDs. |
| InnerSpaceSnapshot.NormalizeSnapshot | custom_components/unifi_insights/innerspace_transforms.py:696-758 | Placed and inventory IDs are disjoint, every device agrees with the correlations, and an access point whose ID a switch repeats stays unmatched in its own section. |
| InnerSpaceMemo.TextualKeysDetermine | custom_components/unifi_insights/innerspace_transforms.py:566-604 | If device IDs are text, equal keys mean equal correlations exactly if the same named sites are indexed or no match depends on Network devices being in view. |
| InnerSpaceMemo.SameScope | custom_components/unifi_insights/innerspace_transforms.py:566-604 | With equal keys and the same narrowing a record matches alike exactly if the only device with its MAC renders the same ID. |
| InnerSpaceMemo.EmptySiteMatch | custom_components/unifi_insights/innerspace_transforms.py:510-523 | With equal keys, a site indexed on one side only leaves a match alike exactly if it does not depend on Network devices being in view and the match without a site is alike. |
| InnerSpaceMemo.MemoKeyDetermines | custom_components/unifi_insights/innerspace_transforms.py:566-604 | Equal keys, as Python compares them, mean equal correlations for all records exactly if the same named sites are indexed or no match is that sensitive, and no device alone with its MAC in a scope renders its ID differently. |
| InnerSpaceMemo.EmptySiteExample | custom_components/unifi_insights/innerspace_transforms.py:571-575 | Two inputs with one key but different correlations, because of a site without devices. |
| InnerSpaceMemo.NumericIdExample | custom_components/unifi_insights/innerspace_transforms.py:571-575 | Two inputs with equal keys but different device IDs, because Python compares 1 and True as equal. |
| Talkback.StepKeepsInv | custom_components/unifi_insights/media_player.py:183-257 | Each step between awaits keeps the lock discipline, the account of running streams and the quiet after removal. |
| Talkback.InvThroughout | custom_components/unifi_insights/media_player.py:183-257 | So does every interleaving. |
| Talkback.AtMostOneStream | custom_components/unifi_insights/media_player.py:183-224 | In every interleaving at most one talkback stream of the entity runs. |
| Talkback.ReportsWhatRuns | custom_components/unifi_insights/media_player.py:117-122 | Outside of a start, the current stream runs exactly when any stream does. |
| Talkback.SilentAfterRemoval | custom_components/unifi_insights/media_player.py:246-257 | Once removal has finished no stream runs and none ever starts. |
| Talkback.StopTakesItsTurn | custom_components/unifi_insights/media_player.py:216-224 | At its turn a stop call is done if nothing runs, and otherwise stops the one stream that runs. |
| Talkback.StopSilences | custom_components/unifi_insights/media_player.py:216-224 | However a stop call ends, no stream runs then. |
| Talkback.PlayTakesItsTurn | custom_components/unifi_insights/media_player.py:183-195 | At its turn a play call is done if the entity is being removed, and otherwise stops what runs and starts. |
| Talkback.PlayPlays | custom_components/unifi_insights/media_player.py:191-203 | A start that returns leaves its stream current and watched, and no other running. |
| Talkback.PlayEnds | custom_components/unifi_insights/media_player.py:183-203 | A play call ends only with its stream current, by an error, or because the entity is being removed. |
| Talkback.RemovalCancels | custom_components/unifi_insights/media_player.py:246-257 | A removal that finishes leaves no completion task waiting. |
| FloorPlanImage.StepKeepsInv | custom_components/unifi_insights/image.py:328-438 | Each step keeps cache, failure flag, retry and answers honest, and forgets no fetch. |
| FloorPlanImage.AlwaysHonest | custom_components/unifi_insights/image.py:328-438 | In every interleaving cached bytes come from a successful fetch of the cached URL, a failure means nothing is cached, one retry runs at most, and every image answer was fetched from the URL current when its request began. |
| FloorPlanImage.CachedAnswerIsCurrent | custom_components/unifi_insights/image.py:373-380 | An image answered from the cache was fetched from the URL of that moment. |
| FloorPlanImage.FreshServes | custom_components/unifi_insights/image.py:373-380 | A cached image of the current URL is answered at once, without another fetch. |
| FloorPlanImage.FreshStays | custom_components/unifi_insights/image.py:340-438 | It stays so until the data names another URL or a fetch already under way comes in. |
| FloorPlanImage.AskFetches | custom_components/unifi_insights/image.py:373-406 | Without an image and without a failure a request fetches the current URL if it names an asset, and fails it otherwise. |
| FloorPlanImage.FetchAnswers | custom_components/unifi_insights/image.py:384-452 | A fetch that succeeds is cached, one that fails marks its URL failed; a request answers accordingly. |
| FloorPlanImage.NewUrlResets | custom_components/unifi_insights/image.py:340-350 | After an update with another URL no failure, image or retry of the old one is left, and requests go on. |
| FloorPlanImage.RetryRecovers | custom_components/unifi_insights/image.py:340-390 | From any failure of the current URL the next update leads through one retry back to an image, if the fetch succeeds. |
| FloorPlanImage.LateAnswerExample | custom_components/unifi_insights/image.py:373-390 | A fetched answer may be for a URL that is no longer current. |
| RuleExport.RedactNetworkRuleExport | custom_components/unifi_insights/diagnostics.py:499-533 | Computes the export; no string in it holds a bounded MAC and no string or key is one as a whole. |
| RuleExport.ExportedClean | custom_components/unifi_insights/diagnostics.py:531-533 | The export is free of MACs for every document and allow-list. |
| ExportSecrecy.SafeValueReveals | custom_components/unifi_insights/diagnostics.py:423-451 | Two values are kept as equal exactly if they differ only inside values the filter replaces. |
| ExportSecrecy.RuleReveals | custom_components/unifi_insights/diagnostics.py:454-468 | Two rules are redacted alike exactly if both are unreadable, or they have the same keys and agree on the allow-listed ones. |
| ExportSecrecy.FamilyValueReveals | custom_components/unifi_insights/diagnostics.py:471-482 | Of a family only status, count and the rule list show. |
| ExportSecrecy.SiteReveals | custom_components/unifi_insights/diagnostics.py:485-496 | A redacted site shows exactly its keys, its rule types and what its rules show. |
| ExportSecrecy.NumbersFollowOrder | custom_components/unifi_insights/diagnostics.py:522-527 | Sites are numbered 1..n in the sorted order of their IDs, no two alike. |
| ExportSecrecy.LabelsDistinct | custom_components/unifi_insights/diagnostics.py:522-531 | No two sites share a label. |
| ExportSecrecy.NumbersRevealOrder | custom_components/unifi_insights/diagnostics.py:522-531 | Two lists of site IDs get the same labels exactly if one is an order-preserving renaming of the other. |
| ExportSecrecy.RedactionReveals | custom_components/unifi_insights/diagnostics.py:499-530 | Two documents are redacted alike exactly if they agree on everything that may be shown. |
| ExportSecrecy.NonInterference | custom_components/unifi_insights/diagnostics.py:499-533 | Documents that differ only in hidden values, names or an order-preserving renaming of site IDs give the same export, pseudonyms included. |
| ExportShape.SitesKept | custom_components/unifi_insights/diagnostics.py:522-533 | The export has as many sites as the document. |
| ExportShape.RulesKept | custom_components/unifi_insights/diagnostics.py:471-533 | Under its site's label each rule family has as many rules as in the document. |
| ExportShape.AnonymousAt | custom_components/unifi_insights/diagnostics.py:249-299 | Following a path of ordinary keys commutes with replacing MACs. |
| ExportShown.SafeValueShows | custom_components/unifi_insights/diagnostics.py:423-451 | A kept value is the value itself with REDACTED exactly in place of each text that is not plain and each mapping with a key that is not, however deep. |
| ExportShown.RuleIsShown | custom_components/unifi_insights/diagnostics.py:454-468 | A redacted rule has the rule's keys, each listed one with what its value shows and any other REDACTED; a rule with a key that is not plain is REDACTED whole. |
| ExportShown.FamilyValueIsShown | custom_components/unifi_insights/diagnostics.py:471-482 | Status and count show what they may, the rule list shows its rules one by one, and anything else is REDACTED. |
| ExportShown.SiteIsShown | custom_components/unifi_insights/diagnostics.py:485-496 | A site shows its families and has REDACTED under every other key. |
| ExportShown.DocumentIsShown | custom_components/unifi_insights/diagnostics.py:499-530 | The export has the document's keys: version and time as they are, the console's values REDACTED, the sites in order under their labels, anything else REDACTED, and `redacted` is true. |
| ExportShown.ExportedAtOnce | custom_components/unifi_insights/diagnostics.py:499-533 | The export is that redacted document with every MAC replaced from one table, in which no two addresses share a name. |
| ExportShown.TopLevelStands | custom_components/unifi_insights/diagnostics.py:512-533 | Version and time stand in the export unchanged, unless they hold a MAC. |
| ExportShown.FamilyValueStands | custom_components/unifi_insights/diagnostics.py:471-533 | Under its site's label each family's status, count and other values stand as they may be shown. |
| ExportShown.RuleValueStands | custom_components/unifi_insights/diagnostics.py:423-533 | Under its site's label, type and position each value of a rule stands in the export as it may be shown: a listed plain value without a MAC unchanged, a value not listed as REDACTED. |
| ExportShown.LessIs | custom_components/unifi_insights/diagnostics.py:522-527 | One site ID precedes another if it is a proper beginning of it or has the smaller character at the first difference. |
| ExportShown.SitesNumbered | custom_components/unifi_insights/diagnostics.py:522-531 | Sites with different IDs are numbered in the code-point order of the IDs as texts. |
| MacPseudonyms.PlaceholderDense | custom_components/unifi_insights/diagnostics.py:230-246 | Handing out a placeholder keeps the numbering dense from 1 and injective, and never changes one given before. |
| MacPseudonyms.SharedPlaceholder | custom_components/unifi_insights/diagnostics.py:230-246 | Anywhere in one report two values get the same placeholder exactly if they are one address up to case and separators, or one other text up to case. |
| MacPseudonyms.BareIsDigits | custom_components/unifi_insights/diagnostics.py:230-246 | Punctuation removed, a MAC is its twelve digits in order. |
| MacPseudonyms.NoMacLeft | custom_components/unifi_insights/diagnostics.py:218-221 | After substitution no bounded punctuated MAC is left anywhere, not even across the seams. |
| MacPseudonyms.SubstitutedClean | custom_components/unifi_insights/diagnostics.py:277-284 | A string that is no MAC as a whole is neither one afterwards, nor holds one. |
| MacPseudonyms.AnonymousClean | custom_components/unifi_insights/diagnostics.py:249-299 | The whole output tree is clean, and the numbering stays dense and grows only. |
| MacPseudonyms.SubstitutedAtOnce | custom_components/unifi_insights/diagnostics.py:282-284 | Numbering while replacing comes to the same as replacing each MAC by its final placeholder and keeping everything between. |
| MacPseudonyms.AnonymousAtOnce | custom_components/unifi_insights/diagnostics.py:249-299 | So does the whole walk over a payload. |
| MacPseudonyms.UnmarkedStands | custom_components/unifi_insights/diagnostics.py:277-299 | A value that holds no MAC stands as it is and uses no placeholder. |
| MacPseudonyms.Report.NextPlaceholder | custom_components/unifi_insights/diagnostics.py:230-246 | Grows the table in place exactly as specified. |
| MacPseudonyms.Report.Substitute | custom_components/unifi_insights/diagnostics.py:282-284 | The left-to-right replacement loop. |
| MacPseudonyms.Report.Anonymize | custom_components/unifi_insights/diagnostics.py:249-299 | The recursion over a payload, growing the table in place; its output is clean. |
| MacPseudonyms.Report.AnonymizeItems | custom_components/unifi_insights/diagnostics.py:295-298 | The list case, items in order. |
| MacPseudonyms.Report.AnonymizeFields | custom_components/unifi_insights/diagnostics.py:285-294 | The mapping case, keys included. |
| SetupProbes.DecidesAsDocumented | custom_components/unifi_insights/__init__.py:226-316 | When an attempt loads, starts reauth or is an outage, for all probes and budgets, and the exact budgets it leaves. |
| SetupProbes.Setup.Clear | custom_components/unifi_insights/__init__.py:212-214 | Forgets exactly one entry's counters. |
| SetupProbes.Setup.RaiseForSetupProbes | custom_components/unifi_insights/__init__.py:217-321 | The outcome and the new counters of all entries; every terminal outcome clears the entry's own. |
| SetupProbes.CountersBounded | custom_components/unifi_insights/__init__.py:269-277 | Both counters stay in 0..3 over any run. |
| SetupProbes.EntriesIndependent | custom_components/unifi_insights/__init__.py:246-248 | An entry's budget depends only on its own attempts and unloads. |
| SetupProbes.RetriesSpend | custom_components/unifi_insights/__init__.py:269-316 | While an entry only retries, every attempt that is no outage spends exactly one unit. |
| SetupProbes.SevenAttemptsDecide | custom_components/unifi_insights/__init__.py:217-321 | Among any seven attempts that are no outage, one loads, starts reauth, or the entry is unloaded. |
| SetupProbes.SixRetriesPossible | custom_components/unifi_insights/__init__.py:217-321 | Seven is the least such number: six retries in a row can happen. |
| DirectedBroadcast.UsableOf | custom_components/unifi_insights/client_wake.py:147-164 | The candidates are exactly the enabled corporate and guest networks with an IPv4 subnet of at most 30 bits. |
| DirectedBroadcast.OffersUsable | custom_components/unifi_insights/client_wake.py:147-164 | The same, condition by condition. |
| DirectedBroadcast.ContainsSamePrefix | custom_components/unifi_insights/client_wake.py:162-170 | A network holds exactly the addresses that agree with its own in the prefix, 2 to the power of the rest of 32 bits. |
| DirectedBroadcast.NestedOrDisjoint | custom_components/unifi_insights/client_wake.py:162-165 | Any two IPv4 blocks are nested or disjoint (section 3.1 of RFC 4632). |
| DirectedBroadcast.TopIsHighest | custom_components/unifi_insights/client_wake.py:162-170 | The broadcast address of a usable network is its highest address, a 32-bit one and not the network's own (section 3.2.1.3 of RFC 1122). |
| DirectedBroadcast.DeriveDirectedBroadcast | custom_components/unifi_insights/client_wake.py:132-179 | A matching network ID decides, the first one; otherwise an answer is exactly the top address of the only usable network holding the IP. |
| DirectedBroadcast.NoAnswerMeansNoneOrNested | custom_components/unifi_insights/client_wake.py:172-179 | No network is the only holder exactly if none holds the IP, or two nested or equal ones do. |
| DigitalInputs.BuildOfParse | custom_components/unifi_insights/event.py:646-665 | Every accepted unique ID is rebuilt exactly from what was read out of it. |
| DigitalInputs.ParseOfBuild | custom_components/unifi_insights/event.py:646-665 | A built ID reads back as built exactly if both parts are non-empty and the camera ID neither contains the marker nor ends in all of it but its last character. |
| DigitalInputs.FirstMarker | custom_components/unifi_insights/event.py:660-662 | Where the first marker of a built ID lies, by the marker's borders. |
| DigitalInputs.OverlapIsRejected | custom_components/unifi_insights/event.py:655-664 | An ID whose prefix and suffix overlap is not read. |
| RuleChanges.ValidChanges | custom_components/unifi_insights/event.py:908-914 | Exactly the records with a number and a known change type. |
| RuleChanges.SiteChangesSorted | custom_components/unifi_insights/event.py:901-915 | The well-formed records of a snapshot, all of them and no others, oldest first. |
| RuleChanges.RuleChangeEvent.constructor | custom_components/unifi_insights/event.py:887-899 | Starts at the largest number already listed. |
| RuleChanges.RuleChangeEvent.HandleUpdate | custom_components/unifi_insights/event.py:922-939 | Which events one update fires, the new mark, and how often the state is written. |
| RuleChanges.NewsOfSorted | custom_components/unifi_insights/event.py:926-936 | An update fires, in strictly increasing order, exactly one listed change for each listed number above the mark. |
| RuleChanges.MarkIsLargestShown | custom_components/unifi_insights/event.py:897-929 | The mark is the largest number shown so far, or 0. |
| RuleChanges.FirstMarkIsMax | custom_components/unifi_insights/event.py:896-899 | At construction the mark is the largest number listed, 0 if there is none. |
| RuleChanges.FirstListedIsReported | custom_components/unifi_insights/event.py:901-936 | Of several records with one number the one listed first is reported. |
| RuleChanges.FiresInOrder | custom_components/unifi_insights/event.py:922-939 | Over any run fired numbers strictly increase and exceed the one at construction. |
| RuleChanges.FiresEveryNewChange | custom_components/unifi_insights/event.py:893-939 | If new records carry positive, larger and distinct numbers, a change fires exactly if it was first shown after construction. |
| RuleChanges.FiresOnce | custom_components/unifi_insights/event.py:922-939 | No change fires twice, over any run. |
| RuleAudit.RuleAuditTracker.DropAbsent | custom_components/unifi_insights/coordinators/rule_audit.py:251-254 | Exactly the buffers of sites that are gone are dropped. |
| RuleAudit.RuleAuditTracker.Number | custom_components/unifi_insights/coordinators/rule_audit.py:279-281 | Every change takes the next number of the tracker's one counter. |
| RuleAudit.RuleAuditTracker.Process | custom_components/unifi_insights/coordinators/rule_audit.py:233-293 | One refresh: the new counter and the new buffer of every site. |
| RuleAudit.SiteAudited | custom_components/unifi_insights/coordinators/rule_audit.py:251-293 | A refresh empties an absent site, appends to a present one as far as a hundred records hold, and keeps numbers ascending and within the counter. |
| RuleAudit.ListsNewest | custom_components/unifi_insights/coordinators/rule_audit.py:251-293 | After any run a site lists exactly the last hundred of the changes found since it was last absent, each numbered by the changes found before it on all sites. |
| RuleAudit.OnlyDrops | custom_components/unifi_insights/coordinators/rule_audit.py:279-291 | Over any run, a numbered change that is no longer listed is never listed again. |
| RuleAudit.AuditNumbersGrow | custom_components/unifi_insights/coordinators/rule_audit.py:279-291 | Whatever refreshes an entity sees, new records carry positive, larger and distinct numbers. |
| RuleAudit.FiresWhatItSees | custom_components/unifi_insights/event.py:893-939 | So, without further hypothesis, a change fires exactly if the entity first sees it in an update. |
| RuleAudit.FiresIfStillListed | custom_components/unifi_insights/event.py:922-939 | A change found after construction fires exactly if the entity's next update still lists it. |
| RuleAudit.FiresUnlessBurst | custom_components/unifi_insights/coordinators/rule_audit.py:279-291 | An entity that sees the refresh fires each change it found, except exactly those followed by a hundred or more others of the site in that refresh. |
| ClientTrackers.PrefixedIdNamesMac | custom_components/unifi_insights/device_tracker.py:122-132 | A migrated ID names the MAC it was made of. |
| ClientTrackers.IdNamesMac | custom_components/unifi_insights/device_tracker.py:122-132 | A prefixed ID names what follows the prefix, a bare one itself, in lower case. |
| ClientTrackers.TrackerIs | custom_components/unifi_insights/device_tracker.py:107-119 | Which rows are client trackers, condition by condition. |
| ClientTrackers.WantedIs | custom_components/unifi_insights/device_tracker.py:54-92 | A MAC is wanted exactly if a client that names it, up to case, is of an enabled kind, and untracked exactly if one is not. |
| ClientTrackers.MigrationKeepsMacs | custom_components/unifi_insights/device_tracker.py:135-169 | Migration keeps every row, its MAC and its being a tracker. |
| ClientTrackers.MigrateTrackers | custom_components/unifi_insights/device_tracker.py:135-169 | Only legacy trackers change, only by their prefix; identities stay unique at every call, none is refused, and a tracker left bare is one whose prefixed ID is taken. |
| ClientTrackers.TrackerEntries | custom_components/unifi_insights/device_tracker.py:107-119 | Lists every client tracker row of the entry once, mobility trackers excluded. |
| ClientTrackers.RemoveAll | custom_components/unifi_insights/device_tracker.py:236-244 | With tracking off exactly the listed rows go. |
| ClientTrackers.RemoveUntracked | custom_components/unifi_insights/device_tracker.py:256-265 | Exactly the rows whose MAC is untracked go, the others stay as they are and are returned, each once. |
| ClientTrackers.RetainAll | custom_components/unifi_insights/device_tracker.py:278-293 | Each surviving row gets one entity, under its own ID, and nothing else is marked as tracked. |
| ClientTrackers.DropsAreUnwanted | custom_components/unifi_insights/device_tracker.py:246-265 | Migrating first and then dropping by MAC removes exactly the unwanted rows. |
| ClientTrackers.TrackerPlatform.AddClients | custom_components/unifi_insights/device_tracker.py:295-308 | A listener call adds one entity for each wanted MAC without one, and never repeats a unique ID; exactly the MACs of entities are marked as tracked. |
| ClientTrackers.SetupTrackers | custom_components/unifi_insights/device_tracker.py:198-311 | A row is removed exactly if tracking is off or its MAC is connected with an untracked type; every surviving row has its entity, every wanted client has one, and nothing else has. |
| ClientTrackers.Listen | custom_components/unifi_insights/device_tracker.py:295-313 | Over all later updates no unique ID is given twice, no entity goes, every wanted client has one, and nothing else gets one. |
| ClientTrackers.LiveGrows | custom_components/unifi_insights/device_tracker.py:295-313 | Later listener calls keep the entity of every row. |

## Left out

- MacPseudonyms.NoMacLeft: text is exact for Latin-1; other code points count as printable, caseless word characters, so Unicode case folding, spaces and digits beyond Latin-1 are not modelled.
- AccessWebhook.ParseHeader: timestamps are ASCII digits, while `str.isdigit` also admits other Unicode digits.
- AccessWebhook.AdmittedOnce: HMAC-SHA256 (section 2 of RFC 2104) is a function parameter; only the requests concerned are assumed not to collide, and only where stated; a process restart, which empties the cache, starts a new run.
- AccessWebhook.Handle: reading the body within its limits and parsing it as JSON are parameters; what the dispatcher does with an event is not part of this model.
- AccessMove.ReconfigureLocal: the host name of a URL, hardware addresses in identities and the console's answers are parameters; an exception out of closing the temporary client is not modelled, and neither are the form steps before it.
- ConfigFlow.UpdateSiteEntry: as its docstring says, the synchronous transition only: delayed disk failures and process crashes are not modelled, and registry listeners do not interfere while a re-key or rollback runs.
- SiteMigration.MigrateSiteEntity: the registry's `ValueError` and any other exception are distinguished, not further.
- InnerSpaceView.BuildView: records, devices and sites are mappings with the fields the correlation reads; other sections, non-mapping records and absent data give the plain defaults and are left out.
- InnerSpaceView.IndexNetwork: site IDs are distinct strings, so sites that differ only before `str()` are not modelled.
- InnerSpaceSnapshot.NormalizeSnapshot: the transforms of projects, floor plans and devices only matter as the ID and the three fields the correlation reads.
- InnerSpaceMemo.MemoKeyDetermines: device fields are strings, integers, booleans or None, compared as Python compares them.
- Talkback.SilentAfterRemoval: a state machine over the awaits instead of a class, since tasks interleave there; assumes that `stop()` ends its stream, that a start that raises leaves none running and that waiting for completion returns only after the end. Cancelling a play call from outside and resolving the media before the lock are not modelled.
- FloorPlanImage.AlwaysHonest: a state machine for the same reason; `image_last_updated`, content type and logging are left out, and whether a URL names a floor-plan asset is a parameter.
- ExportSecrecy.NonInterference: one direction, because pseudonyms and the `redacted` marker may also make documents equal that redaction tells apart; `ExportSecrecy.RedactionReveals` has both directions.
- ExportShown.RuleValueStands: what stands unchanged holds no mapping; for mappings under a listed key `ExportShown.SafeValueShows` and `MacPseudonyms.AnonymousAtOnce` say the same in two steps.
- ExportShape.RulesKept: for rule types that are not themselves MACs; two rule types that spell one MAC would be merged under one placeholder.
- RuleExport.RedactNetworkRuleExport: numbers are reals and mapping keys strings or integers; other Python values do not occur in an export.
- DirectedBroadcast.DeriveDirectedBroadcast: parsing addresses and interfaces is a parameter of the networks and the client.
- RuleAudit.RuleAuditTracker.Process: comparing the rules of a site with its baseline is a parameter, as is its failing, which finds nothing; an exception that ends the whole comparison halfway is not modelled.
- RuleChanges.RuleChangeEvent.HandleUpdate: the attributes of an event and the lookup of a site's records in the coordinator's data are left out; a boolean sequence number, which Python takes for 0 or 1, is written as that number.
- ClientTrackers.SetupTrackers: restored names, site IDs, device links and mobility trackers are left out; removing a row does not fail.
- SetupProbes.Setup.RaiseForSetupProbes: messages and the error an exception is raised from are left out.
- API clients, sessions, probing, coordinators, translations, schemas, logging, QR codes and image rendering: I/O or foreign code; only their success or failure appears.
- Entity platforms that map a field to a state, services, dashboards, device-registry metadata and the frontend: they would add only easy members.
