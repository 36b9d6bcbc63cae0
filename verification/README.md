# CleverReach reconciliation engine in Dafny

This project models the reconciliation core of the CleverReach marketing-platform client (`CleverReachClient`). The client keeps local campaigns and contact persons in step with the platform's groups and receivers, in both directions:

- **Contact push.** Persons without a valid email are filtered out, each with an error. The rest are sent in one batch upsert. The platform answers with a heterogeneous list: objects carrying the new receiver `id`, free-text failure messages, or anything else. The client correlates that list with the request by position.
- **Address failures.** The messages `... invalid address '<a>' ...` and `... duplicate address '<a>'` are recognised by two regular expressions. Every sent person with address `<a>` is then reported, not only the one at the answered position.
- **Campaign push.** A campaign without a remote id is inserted as a group; any other campaign is updated.
- **Campaign pull.** Fetched groups are matched to local campaigns by remote id. Each group yields a new record or a merge outcome per matching campaign. Every campaign whose id no group carries is reported as deleted on the platform.
- **Contact pull.** Fetched receivers are matched to local persons twice: by email (which yields discovered remote ids) and by remote id (which yields changed emails and changed activation flags). A receiver whose email matches nobody is a new record. After the loop, persons whose remote id was never seen are reported as deleted. Persons without a remote id whose email was never seen are reported as not yet added.

Files and modules:

- `model.dfy` (`Model`): the entities, the two outcome vocabularies, whole-call faults, and the two notions of "empty string" the client tests for.
- `seqs.dfy` (`Seqs`): the stable filter `Select` (the reference for `Collectors.partitioningBy`), the collector itself, `Map`, and `Dedup` (Guava's `ImmutableSet.copyOf`).
- `multimap.dfy` (`Multimap`): Guava's `Multimaps.index`, and the "not yet found" bookkeeping. That is a copy of the index from which every key seen is removed (`Consume`), followed by a sweep of what is left (`Leftovers`).
- `address_failure.dfy` (`AddressFailure`): the two address-failure patterns, hand-modelled with the matching behaviour of `java.util.regex`.
- `push.dfy` (`Push`): contact push and campaign push.
- `pull.dfy` (`Pull`): campaign pull and contact pull.

Inputs the client would fetch over the network become parameters: the upsert response list, the fetched groups and the fetched receivers. The same goes for the collaborators whose code is not part of this model: the email validator, and the merge and construction functions of the update objects. The operations are pure functions. A call that the client aborts with an exception returns `Failure`, and the outcomes gathered before it are discarded. Two such calls exist: a response list of the wrong length, and a fetched receiver without an email address.

The two pull passes are each paired with an independent description of their outcomes, and a lemma proves the two agree in both directions:

- `GroupExplains` and `ReceiverExplains` describe the contribution of one fetched record.
- `Orphaned`, `NoReceiverWithId` and `NoReceiverWithEmail` describe the sweeps after the loop.

The contact push is characterised per response entry instead. `ClassifyEntry` states the outcome for each of the entry kinds, and the address fan-out is stated through the independent `Matching` selection. Whole-push lemmas lift these facts to the full call: `PushOutcomes`, `PushUpserts`, `PushFansOutAddressFailures` and `PushReportsUnexpectedEntries`.

The sweeps walk a `HashMap`, so their order is unspecified. Their contracts fix the outcomes up to order, as multisets.

## Model

| member | source | states |
|---|---|---|
| Seqs.Partition | de.metas.marketing/cleverreach/src/main/java/de/metas/marketing/gateway/cleverreach/CleverReachClient.java:200-206 | The two lists are the elements that pass and the elements that fail the predicate, each in input order. Together they hold every input element exactly as often as the input does. |
| Seqs.PartitionFrom | de.metas.marketing/cleverreach/src/main/java/de/metas/marketing/gateway/cleverreach/CleverReachClient.java:202-204 | The one-pass collector appends to its two lists exactly the stable selections of the accepted and the rejected elements. |
| Seqs.SelectSplits | de.metas.marketing/cleverreach/src/main/java/de/metas/marketing/gateway/cleverreach/CleverReachClient.java:200-206 | Every element lands in exactly one half of a partition: the multisets and the lengths of the halves add up to those of the input. |
| Seqs.Dedup | de.metas.marketing/cleverreach/src/main/java/de/metas/marketing/gateway/cleverreach/CleverReachClient.java:369-371 | The copy into an immutable set holds no element twice, loses no element, and adds none. |
| Seqs.DedupOrder | de.metas.marketing/cleverreach/src/main/java/de/metas/marketing/gateway/cleverreach/CleverReachClient.java:369-371 | The de-duplicated copy keeps elements in the order of their first occurrence: some occurrence of an earlier element precedes every occurrence of a later one. |
| Seqs.InDedup | de.metas.marketing/cleverreach/src/main/java/de/metas/marketing/gateway/cleverreach/CleverReachClient.java:369-371 | An element is in the de-duplicated copy exactly when it is in the original list. |
| Push.FilterForPersonsWithEmail | de.metas.marketing/cleverreach/src/main/java/de/metas/marketing/gateway/cleverreach/CleverReachClient.java:163-180 | The kept persons are those with an email string the validator accepts, in order. There is one error "Contact person has no (valid) email address" per other person, in order. Kept plus errors equals the number of input persons. |
| Pull.FilterForPersonsWithEmailOrRemoteId | de.metas.marketing/cleverreach/src/main/java/de/metas/marketing/gateway/cleverreach/CleverReachClient.java:182-198 | The kept persons are exactly those with a non-null email string, in order, whatever their remote id. There is one error "contact person has no email address" per person without one, in order. |
| Pull.SecondEmailFilterKeepsAll | de.metas.marketing/cleverreach/src/main/java/de/metas/marketing/gateway/cleverreach/CleverReachClient.java:354-359 | The contact pull's second filter for a non-null email keeps every person the first filter kept. |
| Pull.InNoEmailErrors | de.metas.marketing/cleverreach/src/main/java/de/metas/marketing/gateway/cleverreach/CleverReachClient.java:186-194 | An error from the pull filter is exactly a "no email address" error for an input person whose email is null. |
| Push.NotEmptyStringSurvivesTrim | de.metas.marketing/cleverreach/src/main/java/de/metas/marketing/gateway/cleverreach/CleverReachClient.java:276-283 | A response entry is a non-empty string exactly when it is a string that `String.trim` does not reduce to the empty string. |
| Model.Trim | de.metas.marketing/cleverreach/src/main/java/de/metas/marketing/gateway/cleverreach/CleverReachClient.java:280 | `String.trim` returns a contiguous piece of its input, having removed only characters up to the space from either end, and the piece neither starts nor ends with such a character. |
| Model.TrimmedEmptyIffBlank | de.metas.marketing/cleverreach/src/main/java/de/metas/marketing/gateway/cleverreach/CleverReachClient.java:280 | Trimming leaves nothing of a string exactly when every character of it is at most the space. |
| AddressFailure.LastMatch | de.metas.marketing/cleverreach/src/main/java/de/metas/marketing/gateway/cleverreach/CleverReachClient.java:485-495 | The keyword position chosen is one from which the whole message matches, and no later position does. That is the choice of the leading greedy `.*`. When there is none, no position matches. |
| AddressFailure.MatchShape | de.metas.marketing/cleverreach/src/main/java/de/metas/marketing/gateway/cleverreach/CleverReachClient.java:485-495 | A pattern yields a result exactly when the whole message matches it. The result carries the whole message as error text and the group the regex engine captures as address. |
| AddressFailure.CreateInvalidEmailInfo | de.metas.marketing/cleverreach/src/main/java/de/metas/marketing/gateway/cleverreach/CleverReachClient.java:468-483 | The invalid-address pattern wins when it matches. Otherwise the duplicate-address pattern is used. When neither matches there is no result. The error text is always the whole message. |
| AddressFailure.MultiLineNeverRecognised | de.metas.marketing/cleverreach/src/main/java/de/metas/marketing/gateway/cleverreach/CleverReachClient.java:470-471 | A message containing a line terminator matches neither pattern, because `.` does not match one. |
| AddressFailure.InvalidAddressRoundTrip | de.metas.marketing/cleverreach/src/main/java/de/metas/marketing/gateway/cleverreach/CleverReachClient.java:468-495 | The message `invalid address '<a>'` is recognised with address `a` and the whole message as error text, for every single-line `a` without a quote. |
| AddressFailure.DuplicateIsNotInvalid | de.metas.marketing/cleverreach/src/main/java/de/metas/marketing/gateway/cleverreach/CleverReachClient.java:470-476 | The message `duplicate address '<a>'` does not match the invalid-address pattern tried first, for every single-line `a` without a quote. |
| AddressFailure.DuplicateAddressRoundTrip | de.metas.marketing/cleverreach/src/main/java/de/metas/marketing/gateway/cleverreach/CleverReachClient.java:468-495 | The message `duplicate address '<a>'` is recognised with address `a` through the second pattern, for every single-line `a` without a quote. |
| Push.CreateErrorResults | de.metas.marketing/cleverreach/src/main/java/de/metas/marketing/gateway/cleverreach/CleverReachClient.java:454-466 | There is one error per person filed under the rejected address, in index order, each carrying the platform's message. |
| Push.ClassifyEntry | de.metas.marketing/cleverreach/src/main/java/de/metas/marketing/gateway/cleverreach/CleverReachClient.java:240-270 | The outcomes of one response entry: <br>• an object with "id" upserts the answered person with that remote id; <br>• an object without "id" adds nothing; <br>• a recognised failure message reports every sent person sharing the address; <br>• an unrecognised non-blank string adds nothing; <br>• a blank string or other entry is "Unexpected result" for the answered person. |
| Push.SyncContactPersonsLocalToRemote | de.metas.marketing/cleverreach/src/main/java/de/metas/marketing/gateway/cleverreach/CleverReachClient.java:209-274 | With no valid person the result is exactly the filter errors, and the response list is never consulted. A response count different from the count of sent persons fails the call. Otherwise the filter errors come first. |
| Push.ClassifyFromOutcomes | de.metas.marketing/cleverreach/src/main/java/de/metas/marketing/gateway/cleverreach/CleverReachClient.java:240-271 | The loop over responses yields exactly the outcomes of the individual entries, each judged against the person at its position. |
| Push.PushOutcomes | de.metas.marketing/cleverreach/src/main/java/de/metas/marketing/gateway/cleverreach/CleverReachClient.java:209-274 | An outcome of a successful push is either a filter error or an outcome of the response entry at some position for the person sent there. Every such outcome occurs. |
| Push.EntryUpserts | de.metas.marketing/cleverreach/src/main/java/de/metas/marketing/gateway/cleverreach/CleverReachClient.java:253-265 | A single entry upserts a person exactly when it is an object with "id". The person upserted is then the answered one, with that id as remote id and all else unchanged. |
| Push.PushUpserts | de.metas.marketing/cleverreach/src/main/java/de/metas/marketing/gateway/cleverreach/CleverReachClient.java:253-265 | A push upserts `q` exactly when the entry at some position i is an object with "id" and `q` is the i-th sent person carrying that id. |
| Push.EntryFansOut | de.metas.marketing/cleverreach/src/main/java/de/metas/marketing/gateway/cleverreach/CleverReachClient.java:243-251 | A recognised address failure reports every sent person with that address, whoever was answered at that position. |
| Push.PushFansOutAddressFailures | de.metas.marketing/cleverreach/src/main/java/de/metas/marketing/gateway/cleverreach/CleverReachClient.java:243-252 | In a whole push, a recognised failure at position i yields an error with the whole message for every sent person whose email is the extracted address. |
| Push.PushReportsUnexpectedEntries | de.metas.marketing/cleverreach/src/main/java/de/metas/marketing/gateway/cleverreach/CleverReachClient.java:266-270 | A blank string or non-object entry at position i reports "Unexpected result='…'" for the i-th sent person. |
| Push.PushScenario | de.metas.marketing/cleverreach/src/main/java/de/metas/marketing/gateway/cleverreach/CleverReachClient.java:209-274 | Two persons are pushed. An object with id 101 answers the first, and "duplicate address 'b@x.com'" answers the second. The outcome is exactly the upsert of the first with remote id 101, then the error of the second. |
| Push.CreateOrUpdateGroup | de.metas.marketing/cleverreach/src/main/java/de/metas/marketing/gateway/cleverreach/CleverReachClient.java:504-514 | A campaign is inserted exactly when its remote id is null or empty, and updated otherwise. Either way the outcome carries the campaign unchanged. |
| Push.SyncCampaignsLocalToRemote | de.metas.marketing/cleverreach/src/main/java/de/metas/marketing/gateway/cleverreach/CleverReachClient.java:286-295 | There is one outcome per campaign, in input order. It is Inserted exactly when the campaign's remote id is empty, and Updated exactly when it is not. |
| Multimap.Index | de.metas.marketing/cleverreach/src/main/java/de/metas/marketing/gateway/cleverreach/CleverReachClient.java:302 | The index has exactly the keys some element carries. Under each key are the elements carrying it, in input order. |
| Multimap.InIndex | de.metas.marketing/cleverreach/src/main/java/de/metas/marketing/gateway/cleverreach/CleverReachClient.java:315 | An element is filed under a key exactly when it is an input element carrying that key. |
| Multimap.NothingFiled | de.metas.marketing/cleverreach/src/main/java/de/metas/marketing/gateway/cleverreach/CleverReachClient.java:315-316 | Looking up a key no element carries gives the empty list. |
| Multimap.Consume | de.metas.marketing/cleverreach/src/main/java/de/metas/marketing/gateway/cleverreach/CleverReachClient.java:311-313 | Removing the key of each fetched record in turn leaves exactly the index minus the set of keys seen. |
| Multimap.SweepRemaining | de.metas.marketing/cleverreach/src/main/java/de/metas/marketing/gateway/cleverreach/CleverReachClient.java:337-339 | Sweeping the keys left after consumption yields, up to order, exactly the elements whose key was never seen. |
| Multimap.Leftovers | de.metas.marketing/cleverreach/src/main/java/de/metas/marketing/gateway/cleverreach/CleverReachClient.java:337-342 | Copy the index, strike the seen keys and map what is left. The result has one entry per element whose key no fetched record carries, and, up to order, is the mapping of those elements. |
| Pull.MergeCampaign | de.metas.marketing/cleverreach/src/main/java/de/metas/marketing/gateway/cleverreach/CleverReachClient.java:322-332 | The outcome carries the merged campaign. It is NoChanges exactly when the merge returns the campaign itself, and otherwise ObtainedOtherRemoteData. |
| Pull.GroupOutcomes | de.metas.marketing/cleverreach/src/main/java/de/metas/marketing/gateway/cleverreach/CleverReachClient.java:315-334 | A group no campaign matches yields exactly one new record built from it. Otherwise it yields one merge outcome per matching campaign, in input order. |
| Pull.GroupOutcomesMeaning | de.metas.marketing/cleverreach/src/main/java/de/metas/marketing/gateway/cleverreach/CleverReachClient.java:315-334 | What one group contributes is exactly what the reference description allows: a new record when unmatched, or the merge outcome of some campaign carrying its id. |
| Pull.GroupsFrom | de.metas.marketing/cleverreach/src/main/java/de/metas/marketing/gateway/cleverreach/CleverReachClient.java:311-335 | The loop over fetched groups yields exactly the outcomes of the individual groups. |
| Pull.SyncCampaignsRemoteToLocal | de.metas.marketing/cleverreach/src/main/java/de/metas/marketing/gateway/cleverreach/CleverReachClient.java:298-345 | The groups' outcomes come first, in fetch order. After them, and up to order, comes one deletion with the remote id cleared for every campaign whose id no fetched group carries. |
| Pull.CampaignPullOutcomes | de.metas.marketing/cleverreach/src/main/java/de/metas/marketing/gateway/cleverreach/CleverReachClient.java:298-345 | An outcome of a campaign pull is either explained by one fetched group or is the deletion of an orphaned campaign. Every such outcome occurs. |
| Pull.CampaignDeletedOnRemote | de.metas.marketing/cleverreach/src/main/java/de/metas/marketing/gateway/cleverreach/CleverReachClient.java:337-342 | A campaign whose remote id no fetched group carries is reported as deleted on the platform, with its remote id cleared. |
| Pull.RemoteIdOutcomes | de.metas.marketing/cleverreach/src/main/java/de/metas/marketing/gateway/cleverreach/CleverReachClient.java:397-405 | The outcomes are ObtainedRemoteId of the merged copy of each person found by email whose remote id is null or empty, in the order they were found, and nothing else. |
| Pull.InRemoteIdOutcomes | de.metas.marketing/cleverreach/src/main/java/de/metas/marketing/gateway/cleverreach/CleverReachClient.java:397-405 | The email match yields ObtainedRemoteId of the merged copy exactly for the found persons lacking a remote id. |
| Pull.InRemoteDataOutcomes | de.metas.marketing/cleverreach/src/main/java/de/metas/marketing/gateway/cleverreach/CleverReachClient.java:407-429 | A person found by remote id yields ObtainedRemoteEmail when its email differs from the fetched one. Independently, it yields ObtainedEmailBounceInfo when its activation flag differs. Nothing else is produced. |
| Pull.InWithRemoteId | de.metas.marketing/cleverreach/src/main/java/de/metas/marketing/gateway/cleverreach/CleverReachClient.java:365-369 | The persons indexed by remote id are exactly the input persons with an email and a non-blank remote id. |
| Pull.InWithoutRemoteId | de.metas.marketing/cleverreach/src/main/java/de/metas/marketing/gateway/cleverreach/CleverReachClient.java:365-371 | The pending persons are exactly the input persons with an email and a blank or missing remote id. |
| Pull.InNewRecordPart | de.metas.marketing/cleverreach/src/main/java/de/metas/marketing/gateway/cleverreach/CleverReachClient.java:431-434 | The email index has the fetched address as a key exactly when some input person has that email. |
| Pull.ReceiverOutcomesMeaning | de.metas.marketing/cleverreach/src/main/java/de/metas/marketing/gateway/cleverreach/CleverReachClient.java:388-435 | What one fetched receiver contributes is exactly what the reference description over the input persons allows. This covers the remote id found by email, the email and the activation flag changed by remote id, and a new record when its email matches no person. |
| Pull.UnknownReceiverIsNewRecord | de.metas.marketing/cleverreach/src/main/java/de/metas/marketing/gateway/cleverreach/CleverReachClient.java:431-434 | A receiver that matches no person by email or by remote id yields exactly one new record built from it. |
| Pull.ReceiversFrom | de.metas.marketing/cleverreach/src/main/java/de/metas/marketing/gateway/cleverreach/CleverReachClient.java:388-392 | The pass over the receivers fails exactly when some receiver has a null or empty email. It then fails with the first such receiver. |
| Pull.InReceiversFrom | de.metas.marketing/cleverreach/src/main/java/de/metas/marketing/gateway/cleverreach/CleverReachClient.java:388-435 | A successful pass yields exactly the contributions of the individual receivers. |
| Pull.InFoundReceivers | de.metas.marketing/cleverreach/src/main/java/de/metas/marketing/gateway/cleverreach/CleverReachClient.java:388-435 | When every receiver has an email, the pass succeeds. Its outcomes are exactly those some receiver's reference description allows. |
| Pull.SyncContactPersonsRemoteToLocal | de.metas.marketing/cleverreach/src/main/java/de/metas/marketing/gateway/cleverreach/CleverReachClient.java:348-452 | The call fails exactly when a receiver lacks an email, and then with the first such receiver. On success the result holds, in this order: <br>• the filter errors; <br>• the receivers' outcomes in fetch order; <br>• up to order, a deletion for every person with a remote id no receiver carries; <br>• up to order, a "not yet added" for every person without a remote id whose email no receiver carries. |
| Pull.ContactPullOutcomes | de.metas.marketing/cleverreach/src/main/java/de/metas/marketing/gateway/cleverreach/CleverReachClient.java:348-452 | Every outcome of a successful contact pull is one of four kinds: <br>• a no-email error; <br>• an outcome one receiver explains; <br>• the deletion of a person whose remote id was never seen; <br>• the "not yet added" of a person without a remote id whose email was never seen. <br>Every such outcome occurs, and nothing else does. |
| Pull.InDeletedPersons | de.metas.marketing/cleverreach/src/main/java/de/metas/marketing/gateway/cleverreach/CleverReachClient.java:437-442 | The deletion tail holds exactly the deletions of persons with an email and a non-blank remote id that no receiver carries. |
| Pull.InPendingPersons | de.metas.marketing/cleverreach/src/main/java/de/metas/marketing/gateway/cleverreach/CleverReachClient.java:444-449 | The pending tail holds exactly the "not yet added" outcomes of persons with an email and a blank remote id whose email no receiver carries. |
| Pull.PersonDeletedOnRemote | de.metas.marketing/cleverreach/src/main/java/de/metas/marketing/gateway/cleverreach/CleverReachClient.java:437-442 | A person with an email and a remote id that no receiver carries is reported as deleted on the platform, with its remote id cleared. |
| Pull.PersonNotYetAdded | de.metas.marketing/cleverreach/src/main/java/de/metas/marketing/gateway/cleverreach/CleverReachClient.java:444-449 | A person with an email, no remote id, and an email no receiver carries is reported as not yet added, with its remote id cleared. |
| Model.ForgetPersonRemoteId | de.metas.marketing/cleverreach/src/main/java/de/metas/marketing/gateway/cleverreach/CleverReachClient.java:440 | The copy has no remote id and agrees with the original in every other field. |
| Model.ForgetCampaignRemoteId | de.metas.marketing/cleverreach/src/main/java/de/metas/marketing/gateway/cleverreach/CleverReachClient.java:340 | The same for a campaign: the copy has no remote id and agrees with the original in every other field. |

## Left out

- Transport, login and the remote calls are not modelled: `getLowLevelClient`, `createGroup`, `updateGroup`, `deleteCampaign`, `retrieveCampaign`, `retrieveAllCampaigns`, `retriveAllGroups` and `retrieveAllReceivers`. Their results are parameters: the upsert response list, the fetched groups and the fetched receivers. The request URL and the `Receiver::of` conversion of the sent persons are not modelled either.
- Collaborators whose code is not part of this model are function-typed parameters with no assumptions, except the one on `EmailValidator.isValid` stated below under `Push.ValidEmail`:
  - `EmailValidator.isValid`;
  - `CampaignRemoteUpdate.update` and `toCampaign`;
  - `ContactPersonRemoteUpdate.updateContactPerson` and `toContactPerson`.
  The conversions `Receiver::toContactPersonUpdate` and `Group::toCampaignUpdate`, and the `EmailAddress` getters, are taken as already applied: a fetched receiver carries its address string and activation flag directly.
- Push.ValidEmail: `EmailValidator.isValid` is modelled on email strings only, and a person whose email is null is taken to be invalid. The source passes the null on to the validator (de.metas.marketing/cleverreach/src/main/java/de/metas/marketing/gateway/cleverreach/CleverReachClient.java:167). Were the validator to accept null, the null email would reach `Multimaps.index` (de.metas.marketing/cleverreach/src/main/java/de/metas/marketing/gateway/cleverreach/CleverReachClient.java:216), which throws on a null key; the model does not cover that case.
- The `Check` utility class is not part of this model. `Check.isEmpty(s)` is taken to mean null or empty. `Check.isEmpty(s, true)` is taken to mean null, or nothing left after `String.trim`. `Check.assumeNotEmpty` and `Check.errorUnless` are taken to throw, which the model renders as a `Failure` of the whole call.
- A response entry is one of three kinds: a string, a map with string values (the `String.valueOf` of each value already applied), or anything else with its string rendering. The model does not look inside JSON beyond that.
- The two regular expressions are modelled by hand for exactly these two patterns, not through a general regex engine. Java's `.` is taken to exclude the five line terminators `\n`, `\r`, U+0085, U+2028 and U+2029.
- The order of the two sweeps over a `HashMap` is unspecified. The model sweeps keys in order of first occurrence, and its contracts promise the swept outcomes only up to order (as multisets).
- `email2contactPersonsWithoutErrorResponse` in the contact push is only written and never read, so it is not modelled.
- Pull.SyncCampaignsRemoteToLocal: requires every campaign to carry a remote id, because Guava's `Multimaps.index` throws on a null key. Campaigns without one are not modelled.
- Pull.FilterForPersonsWithEmailOrRemoteId: despite its name, the source only tests for a non-null email, and the model follows the code. A person with a remote id but no email is rejected with an error.
- `CandidateRepositoryRetrieval.java` (database query building) and `JsonOrganization.java` (a data-transfer object without behaviour) are not part of this model.
- Exceptions thrown by the collaborators are not modelled.
