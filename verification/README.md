# Verification of pymidil

A Dafny model of the parts of pymidil whose correctness spans several functions, with proofs of what
they promise. `dafny verify dfyconfig.toml` checks it.

**Keyset pagination.** `Values.dfy`, `Listings.dfy` and `Queries.dfy` hold documents, the order MongoDB
compares values by, sorted listings, and a query language with an evaluator; `Pagination.dfy` is the
strategy as it runs, proved against what a page is; `Walks.dfy` shows that following cursor links is
offset paging, and `ForwardWalks.dfy` what a forward walk returns while the collection changes.
`$lt` and `$gt` compare only values of one kind, as MongoDB does. `PageOf` is the simple form: the
documents beyond the cursor's key, nearest first. `Paginate` is the fast one: the generated `$or`, one
extra document, the reversal.

**Cursor codec.** `Payloads.dfy` (datetime tagging), `Base64Url.dfy` (unpadded base64url with CPython's
lenient decoder), `HmacCursors.dfy` (dump, signature, framing, validation, expiry) and `CursorLaws.dfy` (what
signatures, expiries and single fields decide). JSON text, date texts, pydantic's readings of single fields and HMAC-SHA256 are parameters; `Externals.Lawful` states the inverse laws the proofs use.

**Deliveries.** `ClaimStore.dfy` is the in-memory idempotency store, `Outcomes.dfy` and `Dispatch.dfy` one
delivery from claim to disposition, `DeadLetters.dfy` acknowledgement, dead-lettering and redrive as they
run. `Protocol.dfy` interleaves any number of deliveries and redrives over two queues and the claim table,
one step for each point where one can be interrupted; a queue call can fail, take effect, or both. Over its
runs, `EventLoss.dfy` says exactly when an event can be lost (the invariant: each event has been handled or
has a copy that nobody is about to delete), `Exclusivity.dfy` exactly when a claim key is handled
exclusively, `Deliveries.dfy` what each delivery and redrive comes to, and `Conservation.dfy` that copies are
conserved, in the ledger of `Ledgers.dfy` that `DeadLetters.dfy` shares.

**Loops and small codecs.** `Throttle.dfy` (poll loop on a clock), `Retries.dfy` (HTTP retry loop),
`Headers.dfy` (SQS header carriage) and `JsonPointers.dfy` (error source pointers).

## Assumptions

- Pagination: the clock is read once per fetch; every document has every sort field, with values of one
  ordered kind per field, and no two documents share a key tuple (`Keys.WellKeyed`); ObjectIds are what `_id`
  holds and nothing else (`Walks.IdsInPlace`, shown necessary by `Walks.AnchorRestored`).
- Deliveries: tasks are not cancelled, subscriber names are distinct and stay the same during a delivery (see
  `Outcomes.DistinctNamesKeepOutcome`), a claim that raises has claimed nothing, and releases do not raise.
  Everything else that the results need is part of them: `EventLoss.LossExactlyWhen` and
  `Exclusivity.ExclusiveExactlyWhen` are if-and-only-ifs, and each setup they exclude has a run that fails.
- A message's claim key is what the key function makes of it (`Config.keys`): copies of one event can have
  different keys, as with the default key, the message id, after a redrive.

## Findings

- A cursor of `""` shows the first page but offers a prev link
  (pymidil/web/pagination/integrations/mongodb/__init__.py:107 and 175; `Walks.EmptyCursorOffersPrev`).
- `decode` does not answer every bad cursor with a cursor error
  (pymidil/web/pagination/strategies/cursor/encoders/hmac.py): a signature that is not ASCII fails with the
  exception of `compare_digest` (line 68), signed JSON that is not a payload with that of `model_validate`
  (line 86), and an expiry without a time zone with the TypeError of comparing it with the clock (line 119),
  also in a cursor that `encode` made (`HmacCursors.NaiveExpiryFails`). `HmacCursors.DecodeFailsOtherwise` says
  exactly when, `HmacCursors.EncodedFailsOtherwise` exactly for which payloads.
- A datetime nested in a payload value comes back as text
  (pymidil/web/pagination/strategies/cursor/models.py:51-60; `HmacCursors.NestedDatetimeIsLost`).
- Two subscribers with one name can hide a failure
  (pymidil/event/consumer/strategies/base.py:260-267; `Outcomes.DistinctNamesKeepOutcome`).
- A duplicate is acknowledged while the claim's holder still runs
  (pymidil/event/consumer/strategies/base.py:193-199), so a message handed out twice, or two events with one
  key, can lose an event (`EventLoss.OverlapLoses`, `EventLoss.SharedKeyLoses`); without a subscriber an
  event is acknowledged and gone (lines 209-215; `EventLoss.NoSubscriberLoses`).
- A success whose acknowledgement raises gives its claim up and is handled again
  (pymidil/event/consumer/strategies/base.py:237-239; `Exclusivity.RaisingAckBreaksExclusion`).
- The bare body and a field named `""` get the same pointer
  (pymidil/web/handlers.py:30-32; `JsonPointers.BareBodyCollides`).

## Model

| member | source | states |
|---|---|---|
| `Walks.CursorSimulatesOffset` | pymidil/web/pagination/integrations/mongodb/__init__.py:72-192 | Over a fixed collection and page size, with each link followed before it expires, any sequence of next and prev moves can be followed with cursors exactly when it can be with the offset mapper's links; the page reached is the slice of the matching documents, in descending key order, at the offset the mapper's links lead to, and offers next and prev exactly when the mapper does there |
| `Walks.OffsetIsPageStart` | pymidil/web/pagination/strategies/offset/mapper.py:10-27 | Following offset links from 0, the offset is always the page number times the size (the clamp at 0 never bites) |
| `Walks.OffsetLinksMean` | pymidil/web/pagination/strategies/offset/mapper.py:10-27 | A next offset is offered exactly before the total and lies one size ahead; a previous one exactly after 0, one size back but never below 0 |
| `Walks.NextSimulates` | pymidil/web/pagination/integrations/mongodb/__init__.py:150-170 | One next move shows the following slice, with links that point past its ends |
| `Walks.PrevSimulates` | pymidil/web/pagination/integrations/mongodb/__init__.py:172-192 | One prev move shows the preceding slice, with links that point past its ends |
| `Walks.EmptyCursorOffersPrev` | pymidil/web/pagination/integrations/mongodb/__init__.py:175-183 | An empty cursor text is read as the first page but offers a prev link, so that page agrees with offset 0 exactly when nothing matches |
| `Walks.LinkLocates` | pymidil/web/pagination/integrations/mongodb/defaults.py:52-66 | The cursor of a document, once encoded and decoded, selects exactly what lies strictly beyond that document's key in the cursor's direction |
| `Walks.AnchorRestored` | pymidil/web/pagination/integrations/mongodb/defaults.py:21-23 | The coerced cursor values are the document's key if and only if ObjectIds stand in `_id` and nowhere else |
| `Walks.RestoredExactlyWhen` | pymidil/web/pagination/integrations/mongodb/defaults.py:59-64 | One value survives stringification and coercion if and only if it is an ObjectId exactly when its field is `_id` |
| `Walks.HmacCodecTrusted` | pymidil/web/pagination/strategies/cursor/encoders/hmac.py:94-120 | The HMAC encoder returns values and direction of every portable payload if and only if the expiry it fills in has not passed at decoding (or it fills in none) |
| `Walks.HmacInTime` | pymidil/web/pagination/strategies/cursor/encoders/hmac.py:94-120 | With the HMAC encoder every link still holds at the next fetch if and only if neighbouring readings of the clock lie within the expiry (or none is filled in) |
| `Walks.BesideSplits` | pymidil/web/pagination/integrations/mongodb/__init__.py:101-118 | What a cursor at the p-th listed document selects is the listing after p (NEXT) or before p (PREV) |
| `Walks.PageIs` | pymidil/web/pagination/integrations/mongodb/__init__.py:120-170 | A page holds the `size` selected documents nearest to the cursor, and its links point past its first and last document |
| `ForwardWalks.ForwardWalk` | pymidil/web/pagination/integrations/mongodb/__init__.py:101-170 | Walking forward with one reading of the clock per fetch and each link followed before it expires, while documents are inserted, deleted and changed arbitrarily between fetches: keys strictly descend, so none is returned twice; if the walk ends, each key that a matching document had at every fetch was returned |
| `ForwardWalks.WalkReturnsMatches` | pymidil/web/pagination/integrations/mongodb/__init__.py:101-148 | The i-th page of a walk holds only documents of the i-th state of the collection that match the base filter |
| `ForwardWalks.DrainsListing` | pymidil/web/pagination/integrations/mongodb/__init__.py:101-170 | For any base filter and any page sizes, the pages of a fixed collection concatenate to the sorted list of matching documents, and the walk ends within one page per remaining document |
| `ForwardWalks.FirstPageCovers` | pymidil/web/pagination/integrations/mongodb/defaults.py:15-36 | A key present in the collection is on the page, or the page's next link still asks for it |
| `Queries.BuildCursorQuery` | pymidil/web/pagination/integrations/mongodb/defaults.py:15-36 | A document satisfies the built query if and only if its key is lexicographically strictly below (NEXT) or above (PREV) the cursor's; the error, if any, is that of the first field that cannot be coerced |
| `Queries.CoercesExactlyWhen` | pymidil/web/pagination/integrations/mongodb/defaults.py:21-23 | A cursor value can be used if and only if it is there and, for `_id`, is an ObjectId or 24 hexadecimal digits of either case; a missing one is an error, any other field's is used as it is |
| `Queries.OneFieldPage` | pymidil/web/pagination/integrations/mongodb/defaults.py:16-27 | With one sort field a cursor selects the documents whose value is smaller (NEXT) or larger (PREV) in the order of its kind: numbers, instants, truth values, texts and ObjectIds; a document without the field or with another kind is never selected |
| `Queries.ClausesMeanBeyond` | pymidil/web/pagination/integrations/mongodb/defaults.py:29-36 | Some prefix-equality clause holds if and only if the key is lexicographically beyond the cursor's, repeated sort fields included |
| `Queries.ClauseHolds` | pymidil/web/pagination/integrations/mongodb/defaults.py:31-34 | A clause holds if and only if its last field decides strictly and the other earlier fields are equal (a repeated field's later condition overwrites the earlier) |
| `Keys.KeyLessDecidedAt` | pymidil/web/pagination/integrations/mongodb/defaults.py:29-36 | Lexicographic order said by recursion is the order said by the position that decides |
| `Keys.BuildSortOrdersKeys` | pymidil/web/pagination/integrations/mongodb/defaults.py:42-46 | Sorting by the built specification is descending key order for NEXT and ascending for PREV |
| `Listings.SortedUnique` | pymidil/web/pagination/integrations/mongodb/__init__.py:125-130 | A set of documents has only one sorted listing, so the order of storage cannot show |
| `Listings.ListingReverses` | pymidil/web/pagination/integrations/mongodb/__init__.py:135-136 | The ascending listing is the descending one reversed |
| `Pagination.Find` | tests/web/pagination/test_cursor.py:111-173 | find, sort and limit return the sorted prefix of the documents that match |
| `Pagination.BuildQuery` | pymidil/web/pagination/integrations/mongodb/__init__.py:101-118 | The joined filters select exactly the documents of the base filter that lie beyond the cursor; the error is the decoder's or the query builder's |
| `Pagination.FetchDocuments` | pymidil/web/pagination/integrations/mongodb/__init__.py:120-142 | Fetching one extra, cutting and reversing gives the nearest `size` documents, newest first, and whether more remain |
| `Pagination.Paginate` | pymidil/web/pagination/integrations/mongodb/__init__.py:72-99 | Query building, fetching, reversal and link building answer the page that the cursor's key alone determines, or its error |
| `Payloads.DecodeValuesNormalises` | pymidil/web/pagination/strategies/cursor/models.py:37-49 | Constructed values never hold a one-key `$dt` mapping, and construction changes nothing if and only if none was given |
| `Payloads.TaggingRoundTrip` | pymidil/web/pagination/strategies/cursor/models.py:37-60 | Decoding after encoding is the identity if and only if the values hold no one-key `$dt` mapping: datetimes stay datetimes, texts stay texts |
| `HmacCursors.RoundTrip` | pymidil/web/pagination/strategies/cursor/encoders/hmac.py:32-120 | Decoding the encoding of a constructed payload gives it back with only a missing expiry filled in, `expires_in_seconds` after encoding, if and only if every value is a datetime or plain JSON and the expiry has a time zone and has not passed |
| `HmacCursors.NestedDatetimeIsLost` | pymidil/web/pagination/strategies/cursor/models.py:51-60 | A datetime inside a list does not come back: a concrete payload for which the round trip fails |
| `HmacCursors.DecodeFailsOtherwise` | pymidil/web/pagination/strategies/cursor/encoders/hmac.py:54-120 | Decoding a cursor fails with an exception that is neither an invalid-cursor nor an expired-cursor error if and only if the cursor is a dot-free text, a dot and a signature that either is not ASCII, or is the right one for a text whose decoded JSON is not a payload or is one whose expiry has no time zone |
| `HmacCursors.DecodeTextFailsOtherwise` | pymidil/web/pagination/strategies/cursor/encoders/hmac.py:54-120 | The same for any Python text: a lone surrogate before the first dot, which cannot be encoded for signing, is one more way to fail |
| `HmacCursors.NonAsciiCursorFails` | pymidil/web/pagination/strategies/cursor/encoders/hmac.py:68-72 | A concrete cursor, "a." and a non-ASCII letter, fails with the exception of `compare_digest` |
| `HmacCursors.SignedNonPayloadFails` | pymidil/web/pagination/strategies/cursor/encoders/hmac.py:86-88 | A concrete signed cursor, that of an empty mapping, fails with the exception of `model_validate` |
| `HmacCursors.NaiveExpiryFails` | pymidil/web/pagination/strategies/cursor/encoders/hmac.py:112-120 | A concrete payload, constructed with an expiry without a time zone, is encoded, and its cursor fails at any time with the exception of comparing that expiry with the clock |
| `HmacCursors.EncodedFailsOtherwise` | pymidil/web/pagination/strategies/cursor/encoders/hmac.py:32-120 | Whatever values a constructed payload holds, decoding the cursor made of it fails with an exception that is neither cursor error if and only if the payload was given an expiry without a time zone; otherwise it decodes until the expiry has passed, and from then on fails with the expired-cursor error |
| `HmacCursors.DecodeAcceptsOnlySigned` | pymidil/web/pagination/strategies/cursor/encoders/hmac.py:54-120 | A cursor decodes if and only if it has the form p + "." + signature(p) with no dot in p, and p carries a payload whose expiry, if any, has a time zone and has not passed |
| `CursorLaws.ForeignSignatureRefused` | pymidil/web/pagination/strategies/cursor/encoders/hmac.py:64-72 | The signature of another text, or made under another key, is refused as invalid whenever its digest differs |
| `CursorLaws.DecodeExpiredExactlyWhen` | pymidil/web/pagination/strategies/cursor/encoders/hmac.py:112-120 | Decoding fails as expired if and only if the signature is right and the payload it carries has an expiry with a time zone before the clock |
| `CursorLaws.SignedNonJsonIsInvalid` | pymidil/web/pagination/strategies/cursor/encoders/hmac.py:74-84 | A rightly signed text that is not base64url of JSON is invalid, among them every text that is not ASCII |
| `CursorLaws.NoDotIsInvalid` | pymidil/web/pagination/strategies/cursor/encoders/hmac.py:58-62 | A text without a dot is invalid |
| `CursorLaws.EncodesExactlyWhen` | pymidil/web/pagination/strategies/cursor/encoders/hmac.py:36-42 | A payload can be encoded if and only if no value holds an ObjectId anywhere |
| `CursorLaws.MissingFieldsTakeDefaults` | pymidil/web/pagination/strategies/cursor/models.py:21-36 | JSON with values alone is the payload of version 1, NEXT, DESC and no expiry |
| `CursorLaws.RefusedExactlyWhen` | pymidil/web/pagination/strategies/cursor/encoders/hmac.py:86-88 | JSON is refused if and only if it is no mapping, has a foreign key, lacks values, or has a field that does not read |
| `HmacCursors.FirstDotSplits` | pymidil/web/pagination/strategies/cursor/encoders/hmac.py:58-62 | Splitting at the first dot recovers both halves of a cursor whose payload half has no dot |
| `HmacCursors.FramedDecodes` | pymidil/web/pagination/strategies/cursor/encoders/hmac.py:44-92 | Signed and framed JSON bytes decode to what validation makes of that JSON, or to the error of its expiry |
| `HmacCursors.DumpIsJson` | pymidil/web/pagination/strategies/cursor/encoders/hmac.py:38-42 | A dumped value is plain JSON, and dumping changes nothing if and only if the value already is |
| `Base64Url.RoundTrip` | pymidil/web/pagination/strategies/cursor/encoders/hmac.py:134-148 | For every byte string the stripped text decodes to the bytes after re-padding, never has length 1 mod 4, and holds neither '.' nor '=' |
| `Base64Url.EncodeUrlSafe` | pymidil/web/pagination/strategies/cursor/encoders/hmac.py:134-138 | The text holds letters, digits, '-' and '_' alone |
| `Base64Url.DigitsDecodeExactlyWhen` | pymidil/web/pagination/strategies/cursor/encoders/hmac.py:140-148 | A text of digits of either alphabet decodes if and only if its length is not 1 mod 4 |
| `Base64Url.ForeignSkipped` | pymidil/web/pagination/strategies/cursor/encoders/hmac.py:140-148 | The decoder skips characters outside the alphabet wherever they stand |
| `Base64Url.EncodeShape` | pymidil/web/pagination/strategies/cursor/encoders/hmac.py:134-138 | Stripping removes exactly the padding that (-len mod 4) restores, and leaves ASCII |
| `Base64Url.ScanPadded` | pymidil/web/pagination/strategies/cursor/encoders/hmac.py:140-148 | The lenient decoder, started on padded text, reads back the bytes |
| `EventLoss.LossExactlyWhen` | pymidil/event/consumer/strategies/base.py:189-244 | An event is accounted for (handled by all subscribers, or with a message in the source or dead-letter queue) in every reachable state if and only if there is a subscriber and either the event can get no claim key, or the claim lifetime is not positive, or the broker hands out no message whose dispatch still runs and no other event can get a key of this one |
| `EventLoss.NoEventLost` | pymidil/event/consumer/strategies/base.py:189-244 | At every state of every run under that condition, with any interleaving and any queue call failing, taking effect or both, each published event is accounted for |
| `EventLoss.ClaimsAreBacked` | pymidil/event/consumer/strategies/base.py:189-230 | Each claim in the table belongs to its last claimer, and that delivery has succeeded or is still handling the key with its message in the source |
| `EventLoss.OwnerIsLastClaimer` | pymidil/event/consumer/strategies/base.py:189-215 | The recorded claimer of a key is the delivery that won its latest claim in the run, and is recorded as successful if and only if it has succeeded since |
| `EventLoss.StepKeepsInv` | pymidil/event/consumer/sqs.py:100-180 | Every step, dead-lettering, redrive and a raising key function included, keeps the invariant that the event is done or has a copy nobody is about to delete |
| `EventLoss.RefusalLeavesHolder` | pymidil/event/consumer/strategies/base.py:193-199 | When a claim refuses a delivery and its message will be deleted, the claim's holder has succeeded with the same event or keeps another copy of it |
| `EventLoss.SourceCopySurvives` | pymidil/event/consumer/sqs.py:100-180 | A copy in the source that is not about to be deleted survives a step, or another takes its place |
| `EventLoss.DlqCopySurvives` | pymidil/event/dlq/redriver.py:63-97 | A dead letter that is not about to be deleted survives a step, or its re-sent copy takes its place, also when several redrives have received it |
| `EventLoss.NoSubscriberLoses` | pymidil/event/consumer/strategies/base.py:209-215 | Without a subscriber a run exists in which a published event is gone |
| `EventLoss.OverlapLoses` | pymidil/event/consumer/strategies/base.py:193-199 | If the event can get a claim key, the lifetime is absent or positive, and the broker hands out a message whose dispatch still runs, a run exists in which the event is gone |
| `EventLoss.SharedKeyLoses` | pymidil/event/idempotency/policy.py:22-33 | If another event can get the same claim key and the lifetime is absent or positive, a run exists in which the event is taken for a duplicate and is gone |
| `Conservation.CopiesConserved` | pymidil/event/consumer/sqs.py:140-180 | At every state of every run, with any mix of dead-lettering, redrive and failing calls, the copies in both queues exceed the messages that arrived and were not acknowledged by exactly the sends whose delete has not taken effect, and no more deletes are made or pending than sends |
| `Deliveries.FailedRunEnds` | pymidil/event/consumer/strategies/base.py:306-352 | A delivery whose subscribers run, with calls that succeed: with a retryable result its message stays and the claim is free; with only other failures its event is in the dead letters, its message gone and the claim free (without a dead-letter queue the message stays) |
| `Deliveries.SuccessfulRunEnds` | pymidil/event/consumer/strategies/base.py:318-361 | With successes alone the message is gone, the event done, its key settled, and the claim kept |
| `Deliveries.RefusedDeliveryEnds` | pymidil/event/consumer/strategies/base.py:193-199 | A delivery refused by a claim deletes its message and changes nothing else |
| `Deliveries.AdmittedDeliveryEnds` | pymidil/event/consumer/strategies/base.py:189-244 | A delivery that is not refused wins its claim; without a subscriber it is acknowledged, else its results decide as above |
| `Deliveries.RaisedCallEnds` | pymidil/event/consumer/strategies/base.py:237-244 | A call that raises inside the dispatch does not end the delivery: the claim is given up and the event dead-lettered |
| `Deliveries.RaisedDeleteEnds` | pymidil/event/consumer/sqs.py:177-180 | When the delete after a dead-lettering raises, the event is dead-lettered a second time and the claim given up; outside the dispatch the delivery is over |
| `Deliveries.EarlyRaiseEnds` | pymidil/event/consumer/sqs.py:267-276 | An exception before the claim, or out of a duplicate's acknowledgement, dead-letters the event and touches no claim |
| `Deliveries.CallsWithResults` | pymidil/event/consumer/sqs.py:100-180 | Where a delivery stands decides its next call, and every combination of effect and failure of that call is a step |
| `Deliveries.NobodyIsStuck` | pymidil/event/consumer/strategies/base.py:166-244 | At every state of every run each delivery can run to its end, whatever its subscribers answer |
| `Deliveries.RedriveEnds` | pymidil/event/dlq/redriver.py:60-97 | A redrive whose calls succeed moves its dead letter to the source, as a message of the same event under any key the event can have |
| `Deliveries.RedriveCallsWithResults` | pymidil/event/dlq/redriver.py:63-97 | A dead letter can be received by several redrives, and sends and deletes can take effect, fail, or both |
| `Exclusivity.ExclusiveExactlyWhen` | pymidil/event/consumer/strategies/base.py:189-240 | In every reachable state at most one delivery with a key runs subscribers, and none once the key was handled, if and only if there is no subscriber, or no message can have the key, or claims have no lifetime and no acknowledger call raises |
| `Exclusivity.ExclusiveHandling` | pymidil/event/consumer/strategies/base.py:189-235 | Without a claim lifetime and with an acknowledger that does not raise, at most one delivery of a key runs subscribers at a time, and after a success none ever does, also when the delete after it failed |
| `Exclusivity.LifetimeSuffices` | pymidil/event/idempotency/store.py:25-32 | With a claim lifetime longer than every delivery takes from winning its claim to succeeding or giving it up, and an acknowledger that does not raise, at most one delivery of a key is between the two at a time |
| `Exclusivity.StepKeepsExclusive` | pymidil/event/consumer/strategies/base.py:217-240 | Every step keeps each unfinished claimant the sole owner of its claim, and each handled key claimed |
| `Exclusivity.LifetimeBreaksExclusion` | pymidil/event/idempotency/store.py:25-32 | With a claim lifetime a run exists in which two deliveries of one key run subscribers together |
| `Exclusivity.RaisingAckBreaksExclusion` | pymidil/event/consumer/strategies/base.py:234-239 | If the acknowledgement of a success raises, a run exists in which the claim is given up and the message's subscribers run again |
| `Outcomes.DetermineOutcome` | pymidil/event/consumer/strategies/base.py:269-321 | The outcome and its error lists are those of the results, in order |
| `Outcomes.OutcomeBySeverity` | pymidil/event/consumer/strategies/base.py:306-321 | Retry if some result is retryable, else dead-letter if some result is another exception, else acknowledge, for any number of results in any order |
| `Outcomes.ErrorsAreComplete` | pymidil/event/consumer/strategies/base.py:280-304 | Each error is carried exactly as often as it occurs among the results |
| `Outcomes.OutcomeKeepsOrder` | pymidil/event/consumer/strategies/base.py:280-316 | The outcome carries exactly the errors of the reported kind, in the order of the results |
| `Outcomes.DistinctNamesKeepOutcome` | pymidil/event/consumer/strategies/base.py:260-267 | Keying results by subscriber name never changes the outcome if and only if the names are distinct |
| `Outcomes.KeyedHoldsEvery` | pymidil/event/consumer/strategies/base.py:260-267 | Every subscriber name given has an entry among the keyed results |
| `Dispatch.EventConsumer.Dispatch` | pymidil/event/consumer/strategies/base.py:166-244 | `_dispatch` makes exactly one acknowledger call, announces exactly one matching terminal stage to every hook, logging the hooks that raise, runs the subscribers unless refused, and keeps the claim it won exactly when the outcome is a success (or nobody subscribes) and the acknowledgement does not raise |
| `Dispatch.EventConsumer.ProcessMessage` | pymidil/event/consumer/sqs.py:228-276 | A delivery ends with one acknowledger call, and with a second one, to dead-letter, exactly when the dispatch or the key function raised; a success (or no subscriber) keeps the claim, a retry, a failure and a raise give it up, a refused delivery leaves the holder's; hooks hear and warn as in the dispatch |
| `Dispatch.EventConsumer.NotifyHooks` | pymidil/event/consumer/strategies/base.py:363-411 | Every hook hears the stage in order, whichever raise; what they raise is logged and ends there |
| `Dispatch.EveryHookHears` | pymidil/event/consumer/strategies/base.py:196-206 | Each hook hears the same: on_duplicate alone for a refused delivery; otherwise on_receive, followed, if subscribers ran, by the one stage of the outcome with its errors |
| `Dispatch.EventConsumer.Process` | pymidil/event/consumer/strategies/base.py:203-244 | The guarded part: hooks, subscribers, outcome, release and disposition, with the claim given up on any other ending than an acknowledged success |
| `Dispatch.StageReportsResults` | pymidil/event/consumer/strategies/base.py:323-361 | The terminal stage is on_complete exactly when all results succeed, and its errors are exactly those of the reported kind |
| `ClaimStore.InMemoryIdempotencyStore.Claim` | pymidil/event/idempotency/store.py:53-65 | Wins exactly when no live claim holds the key, records the expiry, evicts expired claims only at the limit, and leaves at most max(max_entries, live claims + 1) entries |
| `ClaimStore.InMemoryIdempotencyStore.Release` | pymidil/event/idempotency/store.py:67-69 | Drops the key's claim, whoever made it, and no other |
| `ClaimStore.EvictionChangesNoAnswer` | pymidil/event/idempotency/store.py:53-72 | Under a clock that does not go back, every sequence of claims and releases gets the same answers as from a table that never evicts |
| `ClaimStore.Drive` | pymidil/event/idempotency/store.py:53-72 | The store, driven by any sequence of claims and releases, gives the answers and ends with the table that the law about eviction speaks of |
| `DeadLetters.Queues.DeadLetter` | pymidil/event/consumer/sqs.py:140-180 | Dead-lettering conserves copies: the message is sent, then deleted; a refused send leaves it in the source; every event keeps a copy at each intermediate step |
| `DeadLetters.Queues.Redrive` | pymidil/event/dlq/redriver.py:60-102 | A redrive conserves copies at every step whatever call fails; one that finishes has moved every received message and returns their number, at most `max_messages` |
| `DeadLetters.Queues.Send` | pymidil/event/consumer/sqs.py:155-176 | One more copy exactly when the send took effect |
| `DeadLetters.Queues.Acknowledge` | pymidil/event/consumer/sqs.py:100-115 | Acknowledging a handled message deletes it, as its last copy too; a refused delete is swallowed and leaves it |
| `DeadLetters.Queues.Delete` | pymidil/event/consumer/sqs.py:100-115 | One copy fewer exactly when the delete took effect; the last copy of an event goes only if the event was handled |
| `Throttle.PollLoop` | pymidil/event/consumer/sqs.py:192-226 | Each cycle that reads running or throttled makes exactly one pull, in order, and no other makes any; a pull asks for one message when throttled and else for the limit, and gets what is waiting up to that; the clock advances by the times of each cycle, with one pace after a throttled batch and a nap after a held or idle cycle; over every throttled stretch the rate is kept |
| `Throttle.ThrottleBound` | pymidil/event/consumer/strategies/pull.py:76-82 | Over any stretch of any run that reads throttled at rate r (1 if missing, zero or negative), whatever is read before and after, the stretch's messages dispatched in any window of T seconds number at most T * r + 1 |
| `Throttle.NoReceiveWhenHeld` | pymidil/event/consumer/strategies/pull.py:62-74 | A cycle that read paused or draining receives nothing; a throttled one asks for one message |
| `Retries.RetryLoop` | pymidil/client/transport/retry/transport.py:56-82 | Sends at most `max_attempts` times, hands back the first reply that is not to be retried, sends once for a method that is never retried, and otherwise ends with the last response seen, if any; each sleep is what the Retry-After of the last response asks for, or lies within the jitter around the capped doubling delay |
| `Retries.RetriedExactlyWhen` | pymidil/client/transport/retry/strategies.py:7-28 | A request is sent again if and only if its method is one of six and it got one of six statuses or an httpx error |
| `Retries.SleepMeans` | pymidil/client/transport/retry/backoff.py:31-55 | A Retry-After in seconds is slept as it is and one with a date until that date, both at most the cap; any other sleep lies within the jitter around min(cap, base * 2^i), at both ends |
| `Retries.JitterCovers` | pymidil/utils/backoff.py:32-35 | Without jitter the sleep is that delay; with it every length within the jitter is drawn by some fraction |
| `Retries.SleepsBounded` | pymidil/client/transport/retry/backoff.py:31-55 | Every sleep lies in [0, (1 + jitter) * cap]; n sleeps not decided by Retry-After take at most (1 + jitter) * min(n * cap, base * (2^n - 1)) |
| `Retries.NextDelayBounds` | pymidil/utils/backoff.py:32-35 | The jittered delay lies between 0 and (1 + jitter) times the capped doubling delay |
| `Headers.BuildAttributes` | pymidil/event/producer/sqs.py:27-36 | Exactly the first ten scalar headers are sent, in order |
| `Headers.SentExactlyWhen` | pymidil/event/producer/sqs.py:27-36 | A header is sent, as its string form, if and only if it is scalar and fewer than ten scalar ones precede it |
| `Headers.Carrier` | pymidil/event/consumer/sqs.py:84-98 | The carrier holds exactly the metadata entries that have a text, as that text |
| `Headers.CarrierPrefers` | pymidil/event/consumer/sqs.py:87-95 | The carrier takes the first of StringValue and stringValue that is not empty, else Value |
| `Headers.HeadersArrive` | pymidil/event/consumer/sqs.py:252-264 | Each header sent arrives in the carrier as its text if that is not empty and is missing otherwise, whatever the system attributes; other names hold the system's text |
| `JsonPointers.BuiltPointers` | pymidil/web/handlers.py:24-45 | A pointer is built exactly for the locations outside query and header, always fits the required pattern, and reads back as the location's parts if and only if there is at least one |
| `JsonPointers.QueryAndHeader` | pymidil/web/handlers.py:33-38 | A location in the query (header) names its second element as parameter (header), unless that is missing or falsy, and nothing else |
| `JsonPointers.NatTextIsDecimal` | pymidil/web/handlers.py:31-40 | An index is written in decimal digits without a zero in front |
| `JsonPointers.PointerRoundTrip` | pymidil/web/handlers.py:30-45 | Splitting on "/" and unescaping as in section 4 of RFC 6901 returns the exact parts |
| `JsonPointers.PointerMatches` | pymidil/jsonapi/document.py:151-157 | Every built pointer matches the pattern of an error source |
| `JsonPointers.MatchedIsPointer` | pymidil/jsonapi/document.py:151-157 | The pattern admits exactly the texts that are pointers: a text that fits is given back when it is read and built again |
| `JsonPointers.BareBodyCollides` | pymidil/web/handlers.py:30-32 | The bare body and a body field named "" get the same pointer |

## Left out

- Listing order among equal keys, documents without a sort field, and fields of mixed kinds: MongoDB's order there is not modelled.
- The item mapper of `paginate`, an arbitrary function applied to each document.
- A cursor that expires between its two decodings within one `paginate` call.
- Array semantics of query equality, and `ObjectId(None)`, which draws a fresh id: the model calls it an error.
- Time zones of datetimes among the values: such a datetime is one number. An expiry is told apart by whether it has one.
- Lone surrogates in payload texts and secrets, and datetimes past the year 9999.
- HMAC-SHA256, JSON text and date texts themselves: only their inverse laws are used.
- Task cancellation, TaskGroup crashes, consumer start and stop, and restarts of the poll loop after a ClientError.
- The Redis claim store, which treats a lifetime of 0 as "never".
- Claims that take effect and raise all the same, and releases that raise, as those of a remote store could.
- Visibility timeouts and the delay of `retry`: a message that is not deleted can come back at any time.
- Message bodies and attributes across dead-lettering and redrive: the identity of the event is tracked instead.
- EventLoss.NoEventLost: states safety only; that a message is eventually delivered is the broker's part.
- Throttle.PollLoop: takes the control states, arrivals and durations of the cycles as given; reading the control plane over HTTP is not modelled.
- The async retry loop, which has the shape of the sync one; Retry-After texts made of digits that `float` rejects; overflow of 2 ** n.
- Retries.RetryLoop: uses the default methods and status codes; custom sets only change two constants.
- Trace headers added by `inject_headers`: they are part of the header map given to the producer.
- OpenTelemetry, telemetry sinks, logging, the CLI, settings, auth, JSON:API documents, middleware and event context: plumbing, or members too easy to add.
