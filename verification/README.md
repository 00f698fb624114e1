# Verification of the platform back end

A Dafny model of the parts of the Novon back end that keep state or decide
something, and proofs about them. The pieces form one small distributed system:
lock-protected stores, a retrying typed client, and a network that loses
requests and answers.

| file | models |
|---|---|
| `OrderedDict.dfy` | a Python `dict`: a map that remembers insertion order |
| `PartialUpdate.dfy` | the `exclude_unset` dump, `partial_update_dict`, `model_copy`, and histories of patches |
| `UserModel.dfy`, `UserDirectory.dfy` | the User Center's models, and its store as one id-to-user map with linear search by username |
| `UserHistory.dfy` | theorems over whole runs of that store |
| `UserCenter.dfy` | the two dictionaries as a class with the handlers as methods, proved to refine the one map |
| `UserThreads.dfy` | the handlers on any number of threads, one dictionary access per step, proved linearizable |
| `FlowStore.dfy` | the Flow store as one dictionary with atomic operations, as a class and over whole runs |
| `FlowThreads.dfy` | the Flow handlers on any number of threads, one dictionary access per step; creates read clock and id before the lock |
| `RetryClient.dfy` | attempt classification, the retry loop, exponential backoff |
| `LossyNetwork.dfy` | one client call against the user store under every schedule of losses, retries, late arrivals and interference |
| `PercentEncoding.dfy`, `PathTemplate.dfy`, `Endpoint.dfy` | the declarative endpoint compiler |
| `MockRouter.dfy` | the mock transport as a heap of route objects |
| `Gateway.dfy` | error replies of the gateway, and request, trace and user identity across services |

`dafny verify dfyconfig.toml` checks everything.

## How the parts fit

*Stores.* `UserDirectory.Apply` is the specification: one ordered map, a linear
search by username, atomic operations. The class `UserCenter.UserStore` and the
thread machine `UserThreads.Next` both work on two dictionaries and are proved
against it, so every theorem of `UserHistory` holds of both. `FlowStore.Apply`,
its class `Store` and `FlowThreads.Next` are built the same way over one
dictionary. Both thread machines also serve every call (`EveryCallIsServed`,
`LockIsReleased`) and nothing that was not called (`CommitsWereCalled`).

Request models are subset types: a value of type `UserUpdate` is one that parsing
accepted (`PatchAcceptedIff`). An operation carries the uuid and the time its handler reads; `Enabled` is the
only assumption on them: a uuid that is used is new, and the clock does not go
back. In the thread machines the same assumptions are part of the step relation.

*Client.* `RetryClient.Attempts` is the number of attempts of the loop (proved
for the method `RequestWithRetry`); `LossyNetwork` and `MockRouter` use the same
function, so their theorems are about that loop.

*Libraries at the boundary.* tenacity's exponential wait after failed attempt
`k` is `max(max(0, min), min(2^(k-1), max))`; `raise_for_status` raises outside
200-299; a list iterator keeps the list it was made from.

## Results that differ from what one might expect

- The total backoff over `n` attempts is `2^(n-1) - 1` exactly when what the
  lower clamp adds equals what the upper clamp takes away
  (`TotalDelayBalance`). For a lower clamp of at most one this means
  `2^(n-2) <= max(min, max)` (`TotalIsGeometricIff`); for a larger one the two
  can cancel: `min = 2`, `max = 3`, `n = 4` sleeps 2 + 2 + 3 = 1 + 2 + 4
  (`GeometricTotalWithClampedDelays`). That the delays themselves are the powers
  of two is decided for all clamps: `min <= 1` and `2^(n-2) <= max(min, max)`
  (`DelaysArePurePowersIff`).
- A retried delete can succeed and still be reported as 404 (`SuccessReportedAsNotFound`);
  a 204 is seen exactly when the last attempt itself did the deletion (`DeleteOutcome`).
- A full dump sent as a partial update gives the same record exactly when no
  unset field clobbers a stored one (`FullDumpEqualsLocalIff`).
- A placeholder that occurs twice in a path template is accepted when the
  endpoint is declared, and no call of it is ever sent (`RepeatedPlaceholderIsNeverSent`).
- `quote` fails on a string exactly when it holds a lone surrogate (`QuoteRoundTrip`).
- The Flow listing need not be sorted by creation time (`ListingCanBeUnsorted`).
  It is exactly when, of any two surviving creates, the one that got the lock
  first has the clock reading that is not later (`ListingSortedIff`), for instance when no two
  creates overlap (`SequentialCreatesAreSorted`). The user listing always is
  sorted (`ListingIsSorted`).
- Without the lock, two racing creates of one name can both be answered 201
  (`WithoutLockNamesCollide`), an update can revive a flow deleted with 204
  (`WithoutLockDeletedFlowRevives`), and a delete can fail on a missing key
  (`WithoutLockDeletesCrash`).

## Model

| member | source | states |
|---|---|---|
| PartialUpdate.WireEqualsLocal | packages/core/src/novon/core/http/feign.py:217-224 | dumping the set fields, parsing and applying gives the record the payload gives locally |
| PartialUpdate.FullDumpEqualsLocalIff | packages/core/src/novon/core/http/feign.py:217-224 | the full dump does so iff no unset field clobbers a stored value |
| PartialUpdate.LastWrite | packages/core/src/novon/core/model_utils.py:28-35 | finds the last update that writes a field, or that there is none |
| PartialUpdate.LastWriterWins | packages/core/src/novon/core/model_utils.py:28-35 | after any history each field is its last effective write or its starting value |
| PartialUpdate.PatchesCompose | packages/core/src/novon/core/model_utils.py:25-35 | applying two histories one after the other is applying their concatenation |
| PartialUpdate.HistoryIsOnePatch | packages/core/src/novon/core/model_utils.py:25-35 | any history equals one patch, the overlay of its effective updates |
| PartialUpdate.WireHistoryIsOverlay | packages/core/src/novon/core/model_utils.py:12-35 | any history of PATCH requests end to end equals the overlay of their effective updates |
| UserModel.PatchAcceptedIff | packages/uc-api/src/novon/uc_api/models.py:31-36 | which JSON bodies are accepted as a PATCH of a user, and which fields they set |
| UserModel.UpdateKeepsRowValid | apps/uc/src/novon/uc/api/routes.py:114-118 | the unvalidated overlay keeps a record valid, its id and its creation time |
| UserDirectory.ApplyKeepsInv | apps/uc/src/novon/uc/api/routes.py:66-135 | every operation keeps records valid, names unique and creation order; a 4xx changes nothing |
| UserDirectory.Search | apps/uc/src/novon/uc/api/routes.py:47-54 | the linear search returns a holder of the name, or there is none |
| UserHistory.RunKeepsInv | apps/uc/src/novon/uc/api/routes.py:40-135 | every reachable state satisfies the invariant and no request crashes |
| UserHistory.NoResurrection | apps/uc/src/novon/uc/api/routes.py:77-79 | an id once gone never comes back and every request for it gets 404 |
| UserHistory.IdsAreConserved | apps/uc/src/novon/uc/api/routes.py:88-89 | live before plus created equals live after plus deleted, and no id is created twice |
| UserHistory.RacingDeletes | apps/uc/src/novon/uc/api/routes.py:131-135 | racing deletes of a live id give exactly one 204, all others 404 |
| UserHistory.DeletedMeansGone | apps/uc/src/novon/uc/api/routes.py:125-135 | after a 204 every later request for the id in the run gets 404 |
| UserHistory.MintIsInjective | apps/uc/src/novon/uc/api/routes.py:79 | ids are `user_` and the uuid, so different uuids give different ids |
| UserHistory.CreateThenRead | apps/uc/src/novon/uc/api/routes.py:76-90 | a created user is found by id and by name with the payload's values |
| UserHistory.PatchThenRead | apps/uc/src/novon/uc/api/routes.py:103-122 | each field after a PATCH is the given value, or kept when omitted or null |
| UserHistory.DeleteThenRead | apps/uc/src/novon/uc/api/routes.py:131-135 | a deleted user is gone by id and by name |
| UserHistory.OtherRowsUntouched | apps/uc/src/novon/uc/api/routes.py:66-135 | no request changes a user other than the one it names |
| UserHistory.NamesBalanceInOneStep | apps/uc/src/novon/uc/api/routes.py:72-135 | one operation changes whether a name is taken by exactly its claim or release |
| UserHistory.ClaimsAndReleasesAlternate | apps/uc/src/novon/uc/api/routes.py:72-135 | claims minus releases of a name is 0 or 1 over every run and says whether it is taken |
| UserHistory.RacingCreates | apps/uc/src/novon/uc/api/routes.py:72-89 | of k racing creates of a free name that nobody is renamed to exactly one is answered 201 and k-1 are answered 409; renames counted, exactly one request gets the name |
| UserHistory.RenameConflictIff | apps/uc/src/novon/uc/api/routes.py:101-113 | a rename gets 409 iff a different live user holds the name, 404 iff the id is not live |
| UserHistory.CodesOfOperations | apps/uc/src/novon/uc/api/routes.py:40-135 | the status code of every operation by what the store holds: 201 or 409, 200, 404 or 409, 204 or 404, 200 or 404 |
| UserHistory.RecordIsItsHistory | apps/uc/src/novon/uc/api/routes.py:100-118 | a record is its starting value overlaid with the writes that took effect on it |
| UserHistory.LastWriterWinsPerField | apps/uc/src/novon/uc/api/routes.py:100-118 | last writer wins per field over any run; `id` and `created_at` never change |
| UserHistory.ListingIsCreationOrder | apps/uc/src/novon/uc/api/routes.py:40-44 | the listing is the order of successful creates restricted to survivors |
| UserHistory.ListingIsSorted | apps/uc/src/novon/uc/api/routes.py:72-89 | the listing is sorted by creation time, the clock being read inside the lock |
| UserIndex.LookupIsSearch | apps/uc/src/novon/uc/api/routes.py:51-54 | an index lookup returns what the linear search returns |
| UserIndex.InverseIsBijection | apps/uc/src/novon/uc/api/routes.py:18-25 | the index is a bijection between names in use and live ids |
| UserIndex.OwnerConjunctIsRedundant | apps/uc/src/novon/uc/api/routes.py:108-113 | in a rename the owner found is never the user itself |
| UserIndex.OwnerDecidesConflict | apps/uc/src/novon/uc/api/routes.py:111-113 | the owner test is true iff another live user holds the name |
| UserIndex.InverseAfterRename | apps/uc/src/novon/uc/api/routes.py:118-121 | the two index writes of a rename restore the inverse |
| UserCenter.UserStore.CreateUser | apps/uc/src/novon/uc/api/routes.py:66-90 | does to the one-map store what the specification says, same reply, index still the inverse |
| UserCenter.UserStore.UpdateUser | apps/uc/src/novon/uc/api/routes.py:93-122 | likewise for PATCH, renames included |
| UserCenter.UserStore.DeleteUser | apps/uc/src/novon/uc/api/routes.py:125-135 | likewise for DELETE |
| UserCenter.UserStore.GetUserByUsername | apps/uc/src/novon/uc/api/routes.py:47-54 | answers what a linear search by username would |
| UserCenter.UserStore.GetUser | apps/uc/src/novon/uc/api/routes.py:57-63 | finds exactly the live users, and what it finds is a valid record |
| UserCenter.UserStore.ListUsers | apps/uc/src/novon/uc/api/routes.py:40-44 | every live user once, in dictionary order, which is sorted by creation time |
| UserSteps.WorkKeepsInside | apps/uc/src/novon/uc/api/routes.py:43-135 | every single step inside the lock keeps what the rest of the handler relies on, up to the completed atomic operation |
| UserThreads.NextKeepsStateInv | apps/uc/src/novon/uc/api/routes.py:25-135 | every step of every thread keeps: the log is an atomic run, and the dictionaries fit the lock holder's position |
| UserThreads.NextKeepsHistoryInv | apps/uc/src/novon/uc/api/routes.py:25-135 | every step keeps the times of calls, lock releases and answers in order |
| UserThreads.Linearizable | apps/uc/src/novon/uc/api/routes.py:25-135 | every interleaving is an atomic run in lock order with the replies given, respecting call/return order; both dictionaries agree whenever the lock is free |
| UserThreads.EveryCallIsServed | apps/uc/src/novon/uc/api/routes.py:25-135 | from every reachable state with a free lock, any request by any idle thread is done after at most eleven steps of that thread: logged once, as that request, answered as the atomic operation answers, stamped with the clock's reading and the uuid drawn |
| UserThreads.LockIsReleased | apps/uc/src/novon/uc/api/routes.py:25-135 | from every reachable state the lock holder, run alone, completes and answers its call and frees the lock |
| UserThreads.CommitsWereCalled | apps/uc/src/novon/uc/api/routes.py:25-135 | every logged thread and request is one that the schedule called |
| UserThreads.NoCallCrashes | apps/uc/src/novon/uc/api/routes.py:103-134 | no interleaving makes a handler miss a key |
| UserThreads.GuardsNeverFire | apps/uc/src/novon/uc/api/routes.py:52-53 | on any number of threads an index hit always names a stored user, and a rename's owner lookup never finds the renamed user |
| UserThreads.DeletedOnce | apps/uc/src/novon/uc/api/routes.py:131-135 | on any number of threads an id is deleted once, later requests get 404 |
| UserThreads.RacingCreatesOneWinner | apps/uc/src/novon/uc/api/routes.py:72-89 | on any number of threads, of k racing creates of a name one is answered 201 and k-1 are answered 409, unless a rename got it |
| UserThreads.WithoutLockNamesCollide | apps/uc/src/novon/uc/api/routes.py:22-25 | with the lock ignored two creates of one name can both succeed |
| FlowModel.PatchAcceptedIff | packages/flow-api/src/novon/flow_api/models.py:30-35 | which JSON bodies are accepted as a PATCH of a flow, and which fields they set |
| FlowModel.UpdateKeepsRowValid | apps/flow/src/novon/flow/api/routes.py:84-91 | the overlay keeps a flow valid; a null clears the description and no required field |
| FlowModel.PatchedField | apps/flow/src/novon/flow/api/routes.py:81-91 | field by field: a PATCH leaves the value given, a null only for the description, or the old value |
| FlowModel.FullDumpClearsDescription | packages/core/src/novon/core/http/feign.py:57-59 | a full dump used as a patch would clear a stored description, the partial dump does not |
| FlowStore.ApplyKeepsInv | apps/flow/src/novon/flow/api/routes.py:54-104 | every operation keeps every flow valid; a 404 changes nothing |
| FlowStore.Store.CreateFlow | apps/flow/src/novon/flow/api/routes.py:55-71 | inserts the flow built from the id and clock read before the lock |
| FlowStore.Store.UpdateFlow | apps/flow/src/novon/flow/api/routes.py:75-92 | overlays the effective fields or answers 404 |
| FlowStore.Store.DeleteFlow | apps/flow/src/novon/flow/api/routes.py:96-104 | removes the flow or answers 404 |
| FlowStore.Store.GetFlow | apps/flow/src/novon/flow/api/routes.py:46-51 | finds exactly the live flows, and what it finds is a valid record |
| FlowStore.Store.ListFlows | apps/flow/src/novon/flow/api/routes.py:39-42 | every live flow once, in dictionary order |
| FlowStore.MintIsInjective | apps/flow/src/novon/flow/api/routes.py:60 | ids are `flow_` and the uuid, so different uuids give different ids |
| FlowStore.CreateThenRead | apps/flow/src/novon/flow/api/routes.py:57-71 | a created flow is found with the payload's values and disturbs no other |
| FlowStore.PatchThenRead | apps/flow/src/novon/flow/api/routes.py:81-92 | after a PATCH the reply and a later read hold, in each field, the value given, or the old one when omitted or null in a required field |
| FlowStore.DeleteThenRead | apps/flow/src/novon/flow/api/routes.py:101-104 | a deleted flow is not found any more |
| FlowStore.OtherRowsUntouched | apps/flow/src/novon/flow/api/routes.py:54-104 | no request changes a flow other than the one it names |
| FlowStore.RunKeepsInv | apps/flow/src/novon/flow/api/routes.py:54-104 | after every run of atomic operations each flow is valid, never updated before it was created, and no request crashed |
| FlowStore.NoResurrection | apps/flow/src/novon/flow/api/routes.py:96-104 | in a run of atomic operations a flow that is gone stays gone |
| FlowStore.DeletedMeansGone | apps/flow/src/novon/flow/api/routes.py:101-104 | after one 204 the flow is gone for the rest of the run and every later request for it gets 404 |
| FlowStore.RacingDeletes | apps/flow/src/novon/flow/api/routes.py:96-104 | of the deletes of a created flow exactly one is answered 204, if there is any, the others 404; it is live iff there was none |
| FlowStore.RecordIsItsHistory | apps/flow/src/novon/flow/api/routes.py:81-91 | a flow is its starting value overlaid with the writes that took effect |
| FlowStore.LastWriterWinsPerField | apps/flow/src/novon/flow/api/routes.py:81-91 | each field holds what the last PATCH of the flow whose payload gives that field gave it, or its starting value if none does; none gives `id` or `created_at` |
| FlowStore.SortedIffClockOrder | apps/flow/src/novon/flow/api/routes.py:57-70 | after any run the listing is sorted by creation time iff the surviving creates ran in the order of their clock readings |
| FlowSteps.WorkKeepsInside | apps/flow/src/novon/flow/api/routes.py:41-104 | every single step inside the lock keeps what the rest of the handler relies on, up to the completed atomic operation |
| FlowThreads.NextKeepsStateInv | apps/flow/src/novon/flow/api/routes.py:20-104 | every step of every thread keeps: the log is an atomic run, the dictionary fits the lock holder's position, drawn ids are unused and distinct |
| FlowThreads.Atomic | apps/flow/src/novon/flow/api/routes.py:20-104 | every interleaving is an atomic run in lock order with the replies given, each to the request made; no handler misses a key |
| FlowThreads.EveryCallIsServed | apps/flow/src/novon/flow/api/routes.py:20-104 | from every reachable state with a free lock, any request by any idle thread is done after at most seven steps of that thread: logged once, as that request, with the reply of the atomic operation, stamped with the clock's reading and the uuid drawn |
| FlowThreads.LockIsReleased | apps/flow/src/novon/flow/api/routes.py:20-104 | from every reachable state the lock holder, run alone, completes its call and frees the lock |
| FlowThreads.CommitsWereCalled | apps/flow/src/novon/flow/api/routes.py:20-104 | every logged thread and request is one that the schedule called |
| FlowThreads.ReachableFlowsAreValid | apps/flow/src/novon/flow/api/routes.py:57-104 | on any number of threads every stored flow is valid at every moment |
| FlowThreads.RacingDeletesOneWinner | apps/flow/src/novon/flow/api/routes.py:20-23 | on any number of threads racing deletes of a flow give exactly one 204, the others 404 |
| FlowThreads.DeletedStaysDeleted | apps/flow/src/novon/flow/api/routes.py:20-23 | after a 204 the flow is not in the dictionary at any later moment of any interleaving: an update racing the delete cannot revive it; later requests get 404 |
| FlowThreads.ListingIsCommitOrder | apps/flow/src/novon/flow/api/routes.py:38-42 | the listing is the order in which creates got the lock, restricted to survivors |
| FlowThreads.ListingSortedIff | apps/flow/src/novon/flow/api/routes.py:57-70 | on any number of threads the listing is sorted by creation time iff of any two surviving creates the one that got the lock first has the clock reading that is not later |
| FlowThreads.SequentialCreatesAreSorted | apps/flow/src/novon/flow/api/routes.py:57-70 | so it is sorted whenever no two creates overlap between clock reading and lock release |
| FlowThreads.ListingCanBeUnsorted | apps/flow/src/novon/flow/api/routes.py:57-70 | a schedule after which it is not sorted |
| FlowThreads.WithoutLockDeletedFlowRevives | apps/flow/src/novon/flow/api/routes.py:20-23 | with the lock ignored an update racing a delete brings the flow back after the 204 |
| FlowThreads.WithoutLockDeletesCrash | apps/flow/src/novon/flow/api/routes.py:20-23 | with the lock ignored the second of two racing deletes can fail on the missing key |
| RetryClient.OnceByCase | packages/core/src/novon/core/http/base_client.py:226-262 | what one attempt returns or raises, for every kind of answer, body and response model |
| RetryClient.RetriableIff | packages/core/src/novon/core/http/base_client.py:279 | retried are exactly transport errors and answers of 500 and above |
| RetryClient.Attempts | packages/core/src/novon/core/http/base_client.py:274-301 | all attempts before the last were retriable; the last is not, or the budget is used up |
| RetryClient.AttemptsIsFirstDecisive | packages/core/src/novon/core/http/base_client.py:274-301 | the number of attempts is the minimum of the first non-retriable one and the budget |
| RetryClient.RequestWithRetry | packages/core/src/novon/core/http/base_client.py:264-303 | the loop makes that many attempts, returns the last outcome, sleeps the stated total, never reaches the trailing raise |
| RetryClient.WhoIsRetried | packages/core/src/novon/core/http/base_client.py:53 | GET, HEAD, OPTIONS, PUT and DELETE go on after transport errors and answers of 500 and above until the retries are used up; every other call is one attempt |
| RetryClient.Request | packages/core/src/novon/core/http/base_client.py:205-224 | the same of the method that makes the call, which returns the last attempt's outcome |
| RetryClient.DelaysNeverDecrease | packages/core/src/novon/core/http/base_client.py:276-278 | delays never decrease and stay within the clamps |
| RetryClient.TotalDelayIsBounded | packages/core/src/novon/core/http/base_client.py:276-278 | n attempts sleep at most (n-1) times the larger clamp |
| RetryClient.TotalDelayBalance | packages/core/src/novon/core/http/base_client.py:276-278 | the total is the geometric sum plus what was raised minus what was cut |
| RetryClient.TotalIsGeometricIff | packages/core/src/novon/core/http/base_client.py:124-126 | for a lower clamp of at most one the total is geometric iff the last power fits |
| RetryClient.DelaysArePurePowersIff | packages/core/src/novon/core/http/base_client.py:276-278 | for all clamps the delays are the pure powers of two iff the first is not raised and the last is not cut |
| RetryClient.GeometricTotalWithClampedDelays | packages/core/src/novon/core/http/base_client.py:276-278 | for a larger lower clamp the total can be geometric although delays are clamped |
| LossyNetwork.AtMostOneExecutionPerAttempt | packages/core/src/novon/core/http/base_client.py:264-303 | the store executes a request at most once per attempt, late arrivals included |
| LossyNetwork.PostAndPatchRunAtMostOnce | packages/core/src/novon/core/http/base_client.py:181-183 | a create or update is attempted once and runs on the store at most once, also when it arrives after the time-out |
| LossyNetwork.CreateOutcome | packages/core/src/novon/core/http/base_client.py:226-262 | an answered create returns the new user, or a bad-request error 409 iff the name is held |
| LossyNetwork.UpdateOutcome | packages/core/src/novon/core/http/base_client.py:226-262 | an answered PATCH returns the record it left, or maps 404 and 409 |
| LossyNetwork.EventsHappenInOrder | packages/core/src/novon/core/http/base_client.py:264-303 | between attempts the store runs the others' operations as they are and late requests as runs of this call |
| LossyNetwork.OthersAreKept | packages/core/src/novon/core/http/base_client.py:264-303 | a call neither drops nor reorders what other clients do |
| LossyNetwork.ReadsLeaveNoTrace | packages/core/src/novon/core/http/base_client.py:53 | a retried read, early or late, leaves the store as the others made it |
| LossyNetwork.ReadOutcome | packages/core/src/novon/core/http/base_client.py:226-262 | an answered read returns what the store replies when met, or 404; only lost attempts came before; an unanswered one used up the retries and reports how the last attempt ended |
| LossyNetwork.ReadReply | apps/uc/src/novon/uc/api/routes.py:40-63 | that reply is the record the store holds for the id or the name, or the listing |
| LossyNetwork.RetriedDeleteIsOneDelete | packages/core/src/novon/core/http/base_client.py:264-303 | a retried delete equals at most one atomic delete among the others' operations, under every schedule of losses, retries and late arrivals, also after the call has returned |
| LossyNetwork.LaterUsersAreSafe | apps/uc/src/novon/uc/api/routes.py:131-135 | no attempt of a delete, early or late, touches another user, whatever name they took |
| LossyNetwork.DeleteOutcome | packages/core/src/novon/core/http/base_client.py:226-262 | an answered call reports 204 iff its last attempt did the deletion, else 404; an unanswered one used up the retries and reports a timeout or an outage, as the last attempt ended |
| LossyNetwork.SuccessReportedAsNotFound | packages/core/src/novon/core/http/base_client.py:264-303 | a schedule in which the deletion happened and the client is told 404 |
| PercentEncoding.StandardExamples | packages/core/src/novon/core/http/feign.py:213 | the examples of RFC 3629 come out byte for byte |
| PercentEncoding.Utf8RoundTrip | packages/core/src/novon/core/http/feign.py:213 | decoding the UTF-8 of a string gives it back |
| PercentEncoding.EncodeAfterDecode | packages/core/src/novon/core/http/feign.py:213 | the decoder accepts nothing but what the encoder gives, so it is its exact inverse |
| PercentEncoding.QuoteRoundTrip | packages/core/src/novon/core/http/feign.py:20-22 | quoting fails iff there is a lone surrogate, and unquoting recovers the string |
| PercentEncoding.QuotedIsSafe | packages/core/src/novon/core/http/feign.py:205-213 | quoted text holds unreserved characters and percent signs only |
| PercentEncoding.QuotedHasNoDelimiters | packages/core/src/novon/core/http/feign.py:205-213 | quoted text is printable ASCII without any reserved character but the percent sign |
| PercentEncoding.UnreservedIff | packages/core/src/novon/core/http/feign.py:20-22 | which characters are left alone: printable ASCII other than the listed delimiters |
| PercentEncoding.EscapesAreUpperCase | packages/core/src/novon/core/http/feign.py:213 | every other byte becomes a percent sign and two upper-case hexadecimal digits |
| PercentEncoding.QuoteIsIdentityIff | packages/core/src/novon/core/http/feign.py:20-22 | quoting changes an ASCII string iff it has a reserved character, so pre-encoded input is encoded again |
| PercentEncoding.PercentSignIsEncoded | packages/core/src/novon/core/http/feign.py:20-22 | a percent sign becomes `%25`, a space `%20`, a slash `%2F` |
| PathTemplate.DeclaredTemplates | packages/core/src/novon/core/http/feign.py:37 | what is found in the templates of the two services |
| PathTemplate.TemplateSemantics | packages/core/src/novon/core/http/feign.py:112 | the placeholders found are the holes in order, and filling joins the filled segments |
| PathTemplate.UnknownNameFails | packages/core/src/novon/core/http/feign.py:214 | a hole without an argument makes the whole template fail |
| PathTemplate.EscapedStandsForItself | packages/core/src/novon/core/http/feign.py:214 | a text with doubled braces is rendered as itself |
| PathTemplate.FormatIsDefined | packages/core/src/novon/core/http/feign.py:214 | a template whose braces are doubled or placeholders can be filled once its placeholders are known |
| PathTemplate.RenderRoundTrip | packages/core/src/novon/core/http/feign.py:205-214 | splitting the rendered path aligns with the template and decoding recovers every argument |
| PathTemplate.RenderIsInjective | packages/core/src/novon/core/http/feign.py:205-214 | equal paths come from equal arguments in every hole |
| Endpoint.SpecPartitionsParameters | packages/core/src/novon/core/http/feign.py:104-149 | path, body and query partition the declared parameters other than `self` and `ctx` |
| Endpoint.SpecAcceptedIff | packages/core/src/novon/core/http/feign.py:90-145 | accepted iff the method is supported, the annotations resolve, every placeholder is declared, and POST, PUT and PATCH have exactly one model parameter outside the path, the others none; that parameter is the body |
| Endpoint.SpecIsAsDeclared | packages/core/src/novon/core/http/feign.py:151-159 | the spec keeps the declared method and template, and is a partial update iff the method is PATCH |
| Endpoint.BindPath | packages/core/src/novon/core/http/feign.py:202-213 | the path loop succeeds iff no placeholder repeats and every argument is non-None and encodable; what it pops and quotes |
| Endpoint.BindQuery | packages/core/src/novon/core/http/feign.py:227-231 | the query holds exactly the non-None query arguments |
| Endpoint.Invoke | packages/core/src/novon/core/http/feign.py:198-240 | a request is sent iff no placeholder repeats, every path argument is non-None and encodable and no brace strays; which request, and which error otherwise |
| Endpoint.SentAsDeclared | packages/core/src/novon/core/http/feign.py:232-240 | the request sent for a declared endpoint has the declared method, the filled template, a body iff the body argument is not None, and only declared query names |
| Endpoint.BuiltSpecIsBound | packages/core/src/novon/core/http/feign.py:185-200 | an accepted declaration and a bound call meet what the wrapper needs |
| Endpoint.ArgumentsAreConserved | packages/core/src/novon/core/http/feign.py:198-231 | in the request sent every non-None argument can be read back from exactly one place: its path segment, the body or the query; `self` and `ctx` from none |
| Endpoint.CallPathRoundTrip | packages/core/src/novon/core/http/feign.py:205-214 | the path of the request sent for a whole-segment template splits into its segments, each hole decoding to its argument |
| Endpoint.RepeatedPlaceholderIsNeverSent | packages/core/src/novon/core/http/feign.py:205-213 | an endpoint whose placeholder occurs twice is accepted when declared, and no call of it is ever sent |
| Endpoint.ReturnContractHolds | packages/core/src/novon/core/http/feign.py:167-178 | what a call returns or raises for each return annotation and body |
| MockRouter.MockRoute.Receive | packages/test-utils/src/novon_test_utils/mock_router.py:116-154 | a request is recorded first, then answered as configured: by the side effect if there is one, else the return value, else a failure; the configuration stays |
| MockRouter.MockRoute.Reset | packages/test-utils/src/novon_test_utils/mock_router.py:108-114 | log and iterator are cleared, return value and side effect kept |
| MockRouter.Router.Route | packages/test-utils/src/novon_test_utils/mock_router.py:186-190 | one route object per key, distinct from all others, made on first use |
| MockRouter.Router.Reset | packages/test-utils/src/novon_test_utils/mock_router.py:217-224 | every route's log and iterator are cleared, its return value and side effect kept |
| MockRouter.Router.Clear | packages/test-utils/src/novon_test_utils/mock_router.py:226-228 | registrations are forgotten |
| MockRouter.Router.Handle | packages/test-utils/src/novon_test_utils/mock_router.py:234-249 | a matched request is recorded in and answered by its own route only, as configured; an unmatched one changes nothing |
| MockRouter.Router.LogIsProjection | packages/test-utils/src/novon_test_utils/mock_router.py:38-45 | a live route's log is its share of the matched history since its last reset, all of it requests for its own key |
| MockRouter.ConfiguredReplies | packages/test-utils/src/novon_test_utils/mock_router.py:116-139 | every call of a route gets the configured reply, whatever the calls before it |
| MockRouter.RemainingIsReplayed | packages/test-utils/src/novon_test_utils/mock_router.py:141-154 | from any point on a list side effect gives its remaining items one by one, then the exhaustion error; a live iterator keeps the list it was made from |
| MockRouter.ListIsReplayed | packages/test-utils/src/novon_test_utils/mock_router.py:141-154 | call i of a list side effect gets item i, and the exhaustion error after the last |
| MockRouter.FixedExceptionIsRetried | packages/core/src/novon/core/http/base_client.py:264-301 | against a route with a fixed exception the retry loop uses up the budget for a timeout or transport error, and makes one attempt for any other |
| MockRouter.CannedAnswerIsTaken | packages/core/src/novon/core/http/base_client.py:264-301 | against a canned answer it makes one attempt below 500 and uses up the budget from 500 on |
| MockRouter.RetryConsumesList | packages/core/src/novon/core/http/base_client.py:264-301 | driven by the retry loop the calls recorded are the attempts made; a list that runs out ends in the assertion error after one more call |
| Gateway.ReplyFollowsLastAttempt | packages/core/src/novon/core/service_error_handlers.py:36-91 | the gateway's status and body status as a function of the last attempt, the body keeping the code of a 1xx or 3xx answer; no reply for an error nobody handles; outages mean the budget was used up |
| Identity.TokenCharIff | packages/core/src/novon/core/middleware.py:19-25 | the token characters are the printable ASCII characters except the listed separators |
| Identity.EdgeIdsPass | packages/core/src/novon/core/middleware.py:19-32 | every id of such characters up to length 512 passes unchanged, for instance `edge-1:57f6a2` |
| Identity.SanitizeIsSafe | packages/core/src/novon/core/middleware.py:25-32 | the sanitizer returns a token of at most 512 printable ASCII characters, unchanged iff the input is one, otherwise the minted one |
| Identity.RequestContext.ToHeaders | packages/core/src/novon/core/http/context.py:59-70 | each of the four headers is sent iff its field is non-empty, and with the field's value |
| Identity.RequestContext.EnsureRequestId | packages/core/src/novon/core/http/context.py:72-76 | a missing request id is set once, a present one kept |
| Identity.IdsAreCarried | packages/core/src/novon/core/http/context.py:49-70 | one valid request id and the edge's trace id are carried through every chain of trusted hops |
| Identity.TraceAndUserHeadersAreIgnored | packages/core/src/novon/core/middleware.py:55-78 | trace and user headers sent to the edge make no difference to any service |

## Left out

- Routing, JSON text, Pydantic, httpx2 and tenacity internals: libraries whose code is not part of this model; their effect is stated above or is an input.
- FormatMap: conversions, format specs, attributes and indices in a field (`{x!r}`, `{x:>5}`, `{x.y}`) are not rendered; `Invoke` is stated for templates whose fields are names (`FieldsAreNames`), stray and doubled braces included.
- Placeholders that do not fill a whole path segment: the round trips are stated for whole-segment templates, the form all declared endpoints have.
- IsWord: takes `\w` as ASCII letters, digits and underscore; Python also matches other alphabets.
- Method names in lower case: methods are an enumeration, as `request` documents them in upper case.
- Uniqueness of paths across endpoints: `/users/{user_id}` filled with `by-username` is another endpoint's path, so injectivity is per template.
- httpx2's URL normalisation and the servers' path decoding: nothing is claimed about dot segments.
- UserSteps.Work: `list(_USERS.values())` is one read.
- FlowSteps.Work: likewise `list(_FLOWS.values())`.
- LossyNetwork.Fate: a request is executed at most once while the client waits, and at most once late if it was lost; `RetriedDeleteIsOneDelete` needs no such limit.
- FastAPI's validation answers (422), authentication and the `/healthz` and `/me` handlers: requests reach the model already parsed.
- The read-only accessors of the call log (`last`, `called`, `call_count`).
- One-shot iterators and bare responses as `side_effect`: a side effect is an exception, a pure callable or a list.
- Connection pools, time-outs in seconds, logging, settings, app factories, BFF route handlers: plumbing.
