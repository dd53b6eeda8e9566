# gitlive, verified

A Dafny model of the parts of gitlive where correctness is decided by code rather than by an
outside service, with the properties they promise proved for all inputs, all runs or all
reachable states.  `dafny verify dfyconfig.toml` checks the whole project.

What updates state in gitlive is a class here, what loops is a method with a loop, and each is
proved against a specification function or a step of a state machine; the results are lemmas
about those.  Signatures, digests and encryption are symbolic: injective, and verified exactly
when made.

**Secret sharing** (`Gf256`, `GfOrder`, `GfTables`, `Polynomials`, `Lagrange`, `Shamir`,
`ShareFiles`, `MeshShares`).  The exp and log tables are filled as the code fills them and proved
to be multiplication of bytes modulo 0x11d, a field; no table of values is assumed, the order of
the generator is proved from the factors of 255.  Over that field any threshold shares give back
the secret and one share fewer says nothing about it.  `mesh share` and `mesh unseal` get an end
to end theorem on top.

**Guaranteed delivery** (`Relay`, `RelayProtocol`, `RelayGuarantees`, `RelayTraffic`).  Sender
outboxes, relay mailboxes and receivers as a step system with lost requests and replies, drains
whose reply is lost, and receivers that crash between draining and handling.

**Storage in a git repository** (`Upsert`, `ConcurrentIndex`, `GithubRepo`, `GithubStorage`,
`GithubSignup`).  The read, mutate, compare-and-swap loop under every interleaving, and blob
files plus index as one map.

**Measured reliability** (`Medians`, `HealthSeries`, `HealthOutages`, `Reliability`, `Rollup`,
`RollupAgreement`, `Trend`).  One pass over a health series, the daily roll-up kept sample by
sample against the batch fold, and the least squares line.

**Blue-green deploys** (`ActiveSlot`, `BlueGreen`, `BlueGreenSafety`, `BlueGreenFresh`,
`BlueGreenRuns`,
`BlueGreenWitnesses`, `DeployHook`).  The generated hook one shell statement at a time, free to
die at any of them, with the app's processes exiting and taking their ports in between.

**Two schedulers and one encoding** (`EntryQueue`, `EntryRuns`, `EntryNode`; `RepairLedger`,
`RepairPasses`, `RepairBackoff`, `RepairAgent`, `AgentNode`; `JsonText`, `JsonWriting`, `KeyOrder`,
`CanonicalJson`, `CanonicalText`, `ProtoMembers`, `Utf8`, `CanonicalBytes`, `SignedManifest`,
`Pae`).

## What turned out not to hold

Each is proved with the exact condition under which the code does what it promises.

- Joining share files does not reject a repeated index; a secret is recovered for certain exactly
  when the chosen indexes differ (`Shamir.RecoversSecretsIffDistinct`).  `mesh unseal` takes its
  indexes from the policy, where they differ.
- The outbox is keyed by content alone.  The same bytes sent to a second addressee are not
  recorded, and its acknowledgement marks the first one's entry (`RelayGuarantees.GuardIsExact`).
- A delete interrupted after removing the blob leaves the key listed
  (`GithubStorage.InterruptedDeleteDangles`).  A later delete clears a key exactly when it is not
  in that state, which only a put of the key that gets its blob written ends
  (`GithubStorage.DeleteClearsIff`, `GithubStorage.DanglingUntilPut`).
- Uptime exceeds 100 when the clock is behind the last sample and that sample is down
  (`Reliability.SensibleIffClockNotBehind`).
- The daily roll-up and the batch fold part for a sampling step below one minute, where their gap
  limits differ (`RollupAgreement.AgreeIffMinute`).  Their outage counts part on days on which a
  run of down samples begins the series or follows a blind stretch, from a sample down already
  (`RollupAgreement.OutagesAgreeIff`).
- Hook and proxy read the state file by different rules, the hook for A and the proxy for B
  (`ActiveSlot.ReadersAgreeIff`).
- When the state file cannot be written the hook still stops the old slot, which is then still
  the live one: a run is safe exactly when no hook does that with a live process named there
  (`BlueGreenSafety.RunIsSafeIff`; a run that does it is `BlueGreenWitnesses.FailedWriteStopsLive`).
- A process left behind in a slot by a hook that died keeps the port, answers the next deploy's
  health check, and the deploy reports success (`BlueGreenFresh.FreshIffNothingLeft`; a run that
  leaves one is `BlueGreenWitnesses.LeftoverIsReachable`).
- A long poll that runs out stays parked, and the next request is handed to it and lost
  (`EntryRuns.ReachesIffHeadIsLive`, `EntryRuns.IdlePollLosesNext`).
- Deep sorting drops a member named `__proto__`, so it is not signed: the canonical text says all
  of a value exactly when no defined member has that name at any depth
  (`ProtoMembers.MeaningIsFullIff`, `ProtoMembers.TextDeterminesValue`).
- The pre-authentication encoding counts UTF-16 units; that is the byte count only for ASCII
  (`Utf8.LengthIsBytesIff`).  Signing passes a constant ASCII type and base64 (`attest.js:73`),
  and verifying insists on that type (`attest.js:128`), so the two can differ only for a payload
  read from a file while verifying that is not base64.
- `mesh unseal` compares the owner's fingerprint as the policy states it, and verifies with the key
  the policy carries; what it restores was signed by this owner exactly when that key is the
  owner's (`MeshShares.RestoredFromOwnerIff`, `MeshShares.FingerprintDecides`).
- The branch that clears a backoff after six healthy hours (`control/agents.js:178-182`) needs an
  app that is up, but the pass has by then skipped every app that is not down.  A pass that finds
  an app up clears its backoff exactly when the app was deployed since
  (`RepairBackoff.OnlyDeploysClear`).
- The wait after a failed repair is said to double each time (`control/intel.js:915-919`).  It
  never does (`RepairBackoff.NeverDoubles`).

## Model

| member | source | states |
|---|---|---|
| Gf256.DivisionTheorem | crypt.js:262 | the reduction by 0x11d in the table loop is the remainder of carry-less division: p is a carry-less multiple of 0x11d xor the remainder, for every p |
| Gf256.MulIsProductModulo | crypt.js:266 | multiplication in the field is the carry-less product modulo 0x11d |
| Gf256.MulCommutes | crypt.js:266 | multiplication commutes |
| Gf256.MulXor | crypt.js:266 | multiplication distributes over xor |
| GfOrder.NoSmallerOrder | crypt.js:258-263 | no power of 2 below the 255th is 1, so the doubling loop does not close early |
| GfOrder.PowersDistinct | crypt.js:258-263 | the 255 entries the loop writes are pairwise different |
| GfOrder.EveryByteIsAPower | crypt.js:258-263 | every nonzero byte is one of those entries, so every log entry is filled |
| Algebra.Generated.GeneratesField | crypt.js:254-274 | a cyclic group of nonzero elements with an additive doubling map makes a field: associativity, distributivity and inverses |
| GfTables.ByteFieldIsField | crypt.js:254-274 | bytes with xor and the table product are a field |
| GfTables.FillPowers | crypt.js:255-263 | the first loop fills exp with the powers and log with the logarithms of all nonzero bytes |
| GfTables.Tables.TableMul | crypt.js:266 | the table lookup, its index within the 512 entries, is the field product, for all bytes |
| GfTables.Tables.DivIndex | crypt.js:267 | the index (log a + 255 - log b) mod 255 stays below 255 |
| GfTables.Tables.TableDiv | crypt.js:267 | division fails exactly for 0, and otherwise gives the byte that times the divisor is the dividend |
| GfTables.DivIsInverse | crypt.js:267 | the power at that index is the product with the inverse of the divisor, and times the divisor gives the dividend back |
| GfTables.Tables.PolyEval | crypt.js:268-272 | the Horner loop over the tables evaluates the polynomial |
| Polynomials.EvalIsSumOfPowers | crypt.js:268-272 | Horner evaluation is the sum of the coefficients times the powers of x, over any field |
| Polynomials.DivideAt | crypt.js:268-272 | p(z) = p(a) + (z - a) q(z): the step behind uniqueness |
| Polynomials.Unique | crypt.js:276-288 | two polynomials with n coefficients that agree at n different points are the same |
| Polynomials.InterpolateGoesThrough | crypt.js:276-288 | through any values at n different points goes a polynomial with n coefficients |
| Lagrange.WeightsSumToOne | crypt.js:297-308 | the weights of the join at zero sum to one for different points |
| Lagrange.JoinRecovers | crypt.js:297-308 | interpolation at zero over n different points gives the constant term of every polynomial with n coefficients |
| Lagrange.RecoversIffDistinct | crypt.js:302-306 | with equal points skipped as the code does, every polynomial is recovered if and only if no point repeats |
| Lagrange.OneExplanation | crypt.js:276-288 | one value short of the threshold, every secret has exactly one polynomial explaining the values |
| Shamir.RandomPolynomial | crypt.js:282-284 | the coefficients drawn for one byte: the secret byte first, then the random ones |
| Shamir.SplitSecretBytes | crypt.js:276-288 | refuses exactly the bad counts, and otherwise share s holds every secret byte's polynomial at s + 1 |
| Shamir.AcceptedIff | crypt.js:276-280 | the counts accepted are exactly those of at least as many shares as needed, at most 254, where one share alone fits every secret of its length |
| Shamir.WeightFraction | crypt.js:300-306 | numerator and denominator of one weight by the loop that skips equal points; the denominator is never zero |
| Shamir.JoinByte | crypt.js:297-309 | the two nested loops compute the interpolation at zero for one byte |
| Shamir.JoinSecretBytes | crypt.js:290-312 | refuses exactly too few parts and unequal lengths, and otherwise joins the first threshold parts |
| Shamir.SplitThenJoin | crypt.js:276-312 | any threshold shares with different indexes, in any order, join to the secret, for every length and all random coefficients |
| Shamir.RecoversSecretsIffDistinct | crypt.js:303 | a repeated index is skipped, not rejected: a join recovers every secret if and only if the chosen indexes are pairwise different |
| Shamir.PerfectSecrecy | crypt.js:276-288 | for any threshold - 1 shares every candidate secret of that length is explained by exactly one choice of all random coefficients |
| ShareFiles.ParseEncode | crypt.js:317-327 | a share file is GLS1, threshold, total, index and the share, byte by byte, and is read back as the threshold, index and bytes it was written from |
| ShareFiles.SplitFile | crypt.js:314-318 | the share files of a file: header, threshold, total, index and share |
| ShareFiles.JoinFiles | crypt.js:320-333 | fails exactly for the reasons the code checks, and otherwise is the join of the first threshold files |
| ShareFiles.JoinableIff | crypt.js:320-333 | files join if and only if each opens with GLS1 and has an index other than zero, all have one threshold byte and one length, and there are that many of them |
| ShareFiles.FilesRoundTrip | crypt.js:314-333 | share files of one split, any subset in any order, are joined exactly when there are threshold of them, and with different indexes among the first threshold give the file back |
| MeshShares.ScanMemberShares | mesh.js:125-140 | the member scan finds exactly the validly signed shares in member order, and reports forgery exactly when a present file fails a check |
| MeshShares.FoundAreSigned | mesh.js:125-140 | every share found lies in its member's place with the share format, that member's index, the policy's owner and a signature by the policy's key |
| MeshShares.ForgedIff | mesh.js:125-140 | forgery is reported if and only if some member's file is there and is no such share |
| MeshShares.FoundIndexesDiffer | mesh.js:125-140 | the shares found have different indexes when the members' indexes differ |
| MeshShares.Unsealed | mesh.js:199-249 | whatever is on disk, shares of several splits included: a key is written only over a missing one, from enough verified shares with none forged, and it matches the policy digest |
| MeshShares.CheckForetells | mesh.js:216-220 | after sharing and any losses a check says ready exactly when unsealing over a missing key would give that key back, and not ready exactly when it would find too few shares |
| MeshShares.Machine.Share | mesh.js:142-197 | refuses exactly as the code does and then changes nothing; otherwise the policy and one signed share per member are written, stale share files removed and nothing else touched |
| MeshShares.EligibleIff | mesh.js:150-158 | shares can go to exactly the listed nodes with a home that exists and is not this machine's own, each as often as listed |
| MeshShares.DefaultsAreAccepted | mesh.js:150-165 | without flags a machine with two such nodes or more makes two shares of two or two of three, and is not refused |
| MeshShares.WriteShares | mesh.js:176-182 | the writing loop puts each member's signed share in its place and leaves all other files alone |
| MeshShares.Machine.Unseal | mesh.js:199-249 | the command computes that outcome and writes the key file exactly when it restores |
| MeshShares.SurvivingParts | mesh.js:125-140 | a scan after losing some shares finds all the others, with different indexes, and no forgery |
| MeshShares.RestoredFromOwnerIff | mesh.js:199-249 | the owner check compares the fingerprint text and the signatures are checked with the key in the policy: what is restored was signed by this owner if and only if that key is the owner's |
| MeshShares.FingerprintDecides | mesh.js:207-211 | a foreign owner's policy and shares, with this owner's fingerprint text put in, get this owner exactly what they would get the foreign one |
| MeshShares.ShareThenUnseal | mesh.js:142-249 | after sharing n-of-m, losing the local key and any shares restores exactly the same key if and only if at most m - n shares are lost, and refuses otherwise; only a subject other than the policy's is turned away |
| Relay.Pushed | peer.js:190-200 | queueing a message puts it last and drops none; a message still queued changes nothing |
| Relay.RelayNode.MailPush | peer.js:190-200 | the mailbox after a push, and dedup reported exactly when the message was still queued |
| Relay.RelayNode.MailDrain | peer.js:201-206 | a drain hands out the whole mailbox and empties only that one |
| Relay.OutboxStore.SendGuaranteed | peer.js:251-278 | the entry is kept before the first attempt; the mailbox returned is that of the first relay that answers, there is one exactly when some relay answered, and the message is queued at it; nothing else comes into any mailbox |
| Relay.SendLeaves | peer.js:251-278 | what a send leaves: other entries as they were, and of the message sent the first addressee, bytes, time and acknowledgement, with an attempt counted and the relay named exactly when one answered |
| Relay.OutboxStore.AckEntry | peer.js:241-248 | an acknowledgement marks the entry with that id and no other |
| Relay.OutboxStore.RetryOutbox | peer.js:280-292 | retries exactly the entries not acknowledged, at least the minimum age old and answered for; these are queued for the addressee of their first send, nothing else comes into any mailbox, and with none pending no mailbox changes |
| Relay.PollAndAck | peer.js:301-321 | the polling loop consumes acknowledgements into the outbox and sends back exactly the replies that its handler's verdicts earn |
| Relay.RepliesAreEarned | peer.js:323-352 | over any batch the replies are exactly those earned: a pong to the pinging node with its own echo, an acknowledgement of the very item to the node it came from |
| Relay.AckPossibleIff | peer.js:310-318 | an item can be acknowledged if and only if its sender is known, it is no acknowledgement and its handler neither dropped it nor failed nor was missing |
| RelayProtocol.NextKeepsInv | peer.js:186-321 | every step keeps the invariant: lost requests, lost replies, duplicated sends, drains whose reply is lost, receiver crashes, several relays |
| RelayProtocol.RunKeepsInv | peer.js:186-321 | so does every run |
| RelayGuarantees.RunKeepsEntry | peer.js:251-278 | over every run an outbox entry stays, with its addressee and bytes, and stays acknowledged once it is |
| RelayGuarantees.EveryRunIsSound | peer.js:241-321 | in every reachable state each guaranteed send has its entry, and an acknowledged one was accepted by a node the sender addressed with those bytes |
| RelayGuarantees.GuardedRunsAreTruthful | peer.js:251-259 | if no bytes are sent to a second addressee, acknowledged means accepted by the addressee, in every reachable state |
| RelayGuarantees.GuardIsExact | peer.js:257-259 | sending the same bytes again is safe in every continuation if and only if it goes to the entry's addressee: the outbox is keyed by content alone |
| RelayGuarantees.SendAndAcknowledge | peer.js:251-321 | from every state there is a run in which a send is accepted and its acknowledgement recorded |
| RelayGuarantees.NeverStuck | peer.js:280-321 | whatever was lost or crashed, retrying can still get an unacknowledged message accepted and acknowledged |
| RelayTraffic.StepWeight | peer.js:323-352 | without new sends the weight of what is queued, on the wire or held never grows, and every message handled lowers it |
| RelayTraffic.TrafficDiesOut | peer.js:208-216 | so acknowledgements and pongs die out: no run handles more messages than the weight it starts with |
| GithubRepo.Repo.GetFileRaw | gitlive-backend-core/github-store.js:133-147 | the file and its sha, nothing for a missing path, or the code of the fault the request met |
| GithubRepo.CodeIff | gitlive-backend-core/github-store.js:103-130 | 409 and 422 are conflicts, 403 the rate limit exactly when it is used up, else 401 and 403 a refused token, and no other status any of these |
| GithubRepo.Repo.PutFileRaw | gitlive-backend-core/github-store.js:156-180 | the compare-and-swap contract: written exactly when the sha given is that of the file in place, or none is given and none is there, and the request gets through; an unanswered one may have been carried out |
| GithubRepo.Repo.DeleteFileRaw | gitlive-backend-core/github-store.js:187-205 | removed under the same rule; a path already gone is a success; refused requests and faults by their codes |
| GithubRepo.Repo.UpsertJson | gitlive-backend-core/github.js:109-132 | the retry loop with other clients writing or deleting the file between read and write, and requests failing: what it returns is the mutation of what its write replaced, other paths are untouched, and it gives up on conflict only when each of its first retries + 1 attempts was disturbed |
| Upsert.NextKeepsInv | gitlive-backend-core/github.js:109-132 | every step of every interleaving of the loops keeps the invariant |
| Upsert.CommitsAreAtomic | gitlive-backend-core/github.js:109-132 | under every interleaving, with faults, the file is the fold of the committed mutations in commit order, each writer commits at most once, and returns its mutation of the very document it replaced |
| Upsert.NeverExhausted | gitlive-backend-core/github.js:109-132 | up to retries + 1 writers never run out of retries, under any schedule |
| Upsert.RetriesAreExact | gitlive-backend-core/github.js:109 | retries protect every schedule of n writers if and only if n <= retries + 1: seven for the default of six |
| ConcurrentIndex.IndexIsLatest | gitlive-backend-core/github.js:337-351 | under every schedule the index holds for each key what the last commit that changed it left |
| ConcurrentIndex.DifferentKeysAllPresent | gitlive-backend-core/github.js:337-351 | up to seven clients changing different keys: none conflicts out, and for every change that returned the index has the entry set, or no entry for the key dropped |
| GithubStorage.Rows | gitlive-backend-core/github.js:411-414 | a listing has its keys strictly ascending, every live key with the prefix exactly once and no other, each with its size and time |
| GithubStorage.ListingIsUnique | gitlive-backend-core/github.js:411-414 | there is only one such listing |
| GithubStorage.StoragePut | gitlive-backend-core/github.js:296-353 | blob and index after a put, its size limits and failures included; what they say is in ServeRefines |
| GithubStorage.StorageGet | gitlive-backend-core/github.js:355-366 | a get reads the blob |
| GithubStorage.StorageDelete | gitlive-backend-core/github.js:368-400 | blob and index after a delete, which looks only at the blob, whatever is at the index path |
| GithubStorage.StorageList | gitlive-backend-core/github.js:402-415 | the filter and sort loop gives those rows |
| GithubStorage.GetStats | gitlive-backend-core/github.js:418-436 | the counts and the sum over the index |
| GithubStorage.ServeRefines | gitlive-backend-core/github.js:295-436 | each operation on blob files and index answers what a plain map of keys to bytes, type and time would, computed from that map alone, and leaves the files of the map after it |
| GithubStorage.StorageIsAMap | gitlive-backend-core/github.js:295-436 | over any sequence of operations that meets no size ceiling every reply is the map's: a listed row has the length and time of the bytes stored under its key, the totals count the live keys and sum those lengths; and the files still are the map |
| GithubStorage.SizesAre | gitlive-backend-core/github.js:418-436 | the sum over the index is the sum of the lengths of the bytes stored |
| GithubStorage.InterruptedDeleteDangles | gitlive-backend-core/github.js:377-383 | a delete of a live key that stops between its two writes leaves the key in the index without its blob |
| GithubStorage.DeleteClearsIff | gitlive-backend-core/github.js:377-390 | a delete that completes clears its key from the index if and only if the key was not in that state |
| GithubStorage.DanglingUntilPut | gitlive-backend-core/github.js:377-383 | the key stays so through any operations if and only if none of them is a put of it that gets its blob written |
| GithubStorage.StillDanglingIff | gitlive-backend-core/github.js:295-436 | and is so after operations below the size ceiling if and only if it was and none of them wrote its blob |
| GithubStorage.PutThenDeleteClears | gitlive-backend-core/github.js:316-353 | a completed put brings blob and index together whatever was there, and a delete then clears both |
| GithubSignup.OneWinnerPerAddress | gitlive-backend-core/github.js:161-204 | of any number of racing sign-ups for one address at most one wins, no account is overwritten, and a refused one lost to exactly one winner |
| Medians.SortSorts | control/intel.js:56-61 | the median is read from the deltas in ascending order, none lost |
| Medians.MedianIsMiddle | control/intel.js:56-61 | at most half of the values lie below the median and at most half above; for an odd count it is one of them, with half before it and half after; for an even count the mean of the two in the middle |
| HealthSeries.Spacing | control/intel.js:120-122 | the median spacing, one minute when it is zero |
| HealthSeries.Walk | control/intel.js:131-156 | the pass over the samples computes the intervals, outages, covered and blind time, transitions and open outage |
| HealthSeries.SegmentSeries | control/intel.js:117-170 | the whole segmentation is its specification, for every series |
| HealthSeries.StepIsMiddle | control/intel.js:120-122 | the step is that middle of the spacings between neighbouring samples, and a minute when it is zero |
| HealthSeries.TimeIsAccountedFor | control/intel.js:134-142 | covered plus blind time is last minus first timestamp, whatever the order of the samples |
| HealthSeries.SeriesMeasures | control/intel.js:131-156 | covered time is that of the intervals within the gap limit, blind time that of the others, and transitions are counted exactly where a covered interval goes up or down |
| HealthSeries.OutageTimeIsDownTime | control/intel.js:157-169 | outages last exactly the covered time spent after a down sample, plus what passed since the last sample when one is ongoing; only the last can be, and then the last sample is down and not stale |
| HealthOutages.OutagesAreDownRuns | control/intel.js:131-168 | the outages are exactly the maximal runs of down samples the meter saw: each such sample in one run, runs apart, each ended by recovery, by a gap or by the end |
| HealthOutages.OutagesInOrder | control/intel.js:131-168 | outages of an ordered series come out ordered and disjoint, and none reaches across a gap |
| HealthOutages.ClosedOutagesAreCovered | control/intel.js:131-168 | the time of the outages not ongoing is never negative and never exceeds the covered time |
| Reliability.NormalizedIsOrdered | control/intel.js:94-99 | normalising drops unreadable rows and sorts by time, keeping the stored order within an instant |
| Reliability.SumOutages | control/intel.js:184 | the sum of the outage lengths |
| Reliability.UptimeFrom | control/intel.js:179-190 | the uptime percentage of the samples in the window |
| Reliability.UptimeIs | control/intel.js:179-190 | it is the share, to one decimal, of the time covered from the start of the window on that is not in outages, none below zero, and nothing exactly when nothing was covered |
| Reliability.UptimeIsSensible | control/intel.js:179-190 | it lies within 0..100 for every ordered series and window when the clock is not behind the last sample |
| Reliability.SensibleIffClockNotBehind | control/intel.js:157-161 | for all series ending at a given time it does so if and only if the clock has reached that time: otherwise an open outage gets a negative length |
| Rollup.Book | control/intel.js:271-279 | the row of the sample's day with the time since the previous sample booked as up, down or unknown, and a fall and a turn counted |
| Rollup.DayIs | control/intel.js:269 | days last 86400 seconds and are counted from the epoch, before it too |
| Rollup.RollupFile.RecordSample | control/intel.js:268-288 | the file after one sample: that row put, rows sorted, the last 400 kept |
| Rollup.WholeTallies | control/intel.js:268-288 | fed sample by sample, each day's row holds exactly that day's milliseconds by kind, its falls from up to down and its turns, in whatever order the samples come |
| Rollup.FoldByDay | control/intel.js:245-265 | the batch fold of a series, times and outages, by its two loops |
| Rollup.FoldedTallies | control/intel.js:248-253 | per day the fold holds the same up and down milliseconds, under its own gap limit |
| Rollup.ScanStarts | control/intel.js:131-156 | the outages found that start on a day are the falls of that day and the runs of down samples whose beginning the meter did not see |
| Rollup.StartsHaveRows | control/intel.js:254-258 | the day an outage starts on always has a row, so none goes uncounted |
| RollupAgreement.IncrementalIsBatch | control/intel.js:245-288 | incremental and batch agree on every day's up and down time when the median spacing is the step and the step at least a minute |
| RollupAgreement.AgreeIffMinute | control/intel.js:245-276 | for a step of whole milliseconds they agree on every ordered series with that median spacing if and only if it is a minute or more |
| RollupAgreement.OutagesAgreeIff | control/intel.js:254-278 | of outages the fold never has fewer, and on a day it has as many if and only if no run of down samples begins the series or follows a blind stretch from a sample already down; it counts no turns |
| RollupAgreement.WholeTotal | control/intel.js:275-280 | up, down and unknown time sum to last minus first timestamp |
| RollupAgreement.StoredIsTail | control/intel.js:270-285 | cutting to 400 days on every write is the same as cutting once at the end |
| RollupAgreement.StoredIsExact | control/intel.js:268-288 | the file after an ordered series: its last 400 days, each exact, and all of the time when there are no more days |
| Trend.LinearTrend | control/intel.js:433-451 | slope and intercept by two loops, and the squares of the residual deviation and of the error of the slope by the third |
| Trend.FitIff | control/intel.js:435-440 | a fit is given if and only if there are eight points and not all at one time |
| Trend.FitIsBest | control/intel.js:436-442 | no line has a smaller sum of squared residuals than the fitted one, and no other line as small |
| Trend.SignificantIff | control/intel.js:443-463 | a slope of at least twice its own error, or any where there is none, is found if and only if it is not zero and the fitted line leaves at most (n - 2) / (n + 2) of the squared residuals of the flat line through the mean |
| ActiveSlot.ReadersAgreeIff | gitlive.js:418-623 | for every content of the state file, hook and proxy agree on the live slot if and only if it is A with newlines after it or B with white space around it |
| ActiveSlot.WrittenReads | gitlive.js:488 | all that is ever written is read alike |
| BlueGreenSafety.StepIsSafe | gitlive.js:418-518 | every statement, failed write, exit or port taken, and a hook dying anywhere: the live slot is not built into, nothing running in it is killed, and the proxy changes over only at a switch, to a slot that answered, unless the step is a hook stopping the live slot after a failed switch |
| BlueGreenSafety.RunIsSafeIff | gitlive.js:418-518 | a whole run, with state-file writes failing or not, is safe at every step if and only if no hook goes on after a failed switch to a live pid in the live slot's pid file |
| BlueGreenSafety.WritesSucceed | gitlive.js:418-518 | which no hook does in a run from the start in which every write succeeds |
| BlueGreenSafety.AlwaysServed | gitlive.js:418-623 | once a deploy has switched, after any later deploys, failed, dead or unable to write, that never stop the live slot: the process that answered the last check answers on the port the proxy forwards to, unless it ended by itself |
| BlueGreenSafety.ChecksComeFirst | gitlive.js:474-488 | whenever a hook is about to switch, the new slot answered in this very run and nothing was built, started or stopped since |
| BlueGreenRuns.GateComesFirst | gitlive.js:436-441 | in any run of a hook every build, start, pid file, check, switch and stop comes after a dependency-closure gate that passed in that very run |
| BlueGreenRuns.RefusedAtGate | gitlive.js:436-441 | after a refused gate the hook is idle, and active file, live slot, pid files and processes are as at its start, but for processes that ended by themselves |
| BlueGreenRuns.TwentyChecks | gitlive.js:474-486 | traffic is changed over only after an answer within twenty checks, and the new instance is given up only after exactly twenty without one |
| BlueGreenRuns.NoAnswerNoChange | gitlive.js:474-518 | a deploy whose checks get no answer, however far it came, leaves active file, live slot, its pid file and whatever ran as they were |
| BlueGreenRuns.StartsWhatItBuilt | gitlive.js:443-475 | a deploy starts nothing but the files its own build left, in the slot that was not live |
| BlueGreenRuns.RunsToItsEnd | gitlive.js:418-518 | a deploy that went through has its slot in the file if that could be written, its process named and the old one gone; one given up leaves no process and no pid file of its own |
| BlueGreenWitnesses.FailedWriteStopsLive | gitlive.js:488-498 | a run from the start, one good deploy and one whose state file cannot be written, after which the live slot is stopped and nobody answers for it |
| BlueGreenFresh.FreshIffNothingLeft | gitlive.js:463-488 | every deploy begun in a state that switches serves the process it started if and only if no process is left alive in the slot it builds into |
| BlueGreenFresh.NothingLeftSuffices | gitlive.js:463-488 | that process then runs the files just built |
| BlueGreenFresh.StaleDeploy | gitlive.js:476-488 | otherwise there is a run in which the left-behind process answers the check and success is reported |
| BlueGreenWitnesses.LeftoverIsReachable | gitlive.js:463-475 | a first deploy whose hook dies after starting the app leaves such a process |
| BlueGreenFresh.NoDeathNoStaleness | gitlive.js:487-518 | while no hook dies, every deploy serves the process it started |
| DeployHook.Host.Statement | gitlive.js:418-518 | each shell statement changes files and processes as the model's step |
| DeployHook.Host.Turn | gitlive.js:418-518 | what happened meanwhile and then one statement: the gate passes and the check is answered only where the input says so, and a refused gate ends the hook |
| DeployHook.Host.Push | gitlive.js:418-518 | every run of the hook, cut short anywhere and with processes exiting and binding in between, is a path of the model; when its gate refuses nothing is started and no pid file touched, and then, or when no check is answered, the active file, the live slot and its processes are as they were |
| EntryNode.Node.NextPendingFor | entry.js:186-191 | claims the machine's first unclaimed request, or nothing |
| EntryNode.Node.WakeOne | entry.js:192-199 | hands that request to the longest parked poll, or parks the poll again |
| EntryNode.Node.AnswerBrowser | entry.js:254-281 | queues a request and wakes a poll |
| EntryNode.Node.HandleEvents | entry.js:349-382 | a poll takes a request at once or is parked; unknown machines are refused |
| EntryNode.Node.HoldOver | entry.js:367-368 | a poll held too long is told there is nothing, once, and stays parked |
| EntryNode.Node.ConnectionClosed | entry.js:376-381 | a closed poll is unparked unless it was replied to |
| EntryNode.Node.TimeIsUp | entry.js:244-250 | the timeout takes its request and sends the browser the 502 |
| EntryNode.Node.HandleAnswer | entry.js:302-347 | an answer takes its request, malformed or not; one whose request is gone is turned away, so never after a 502 |
| EntryRuns.EventKeeps | entry.js:186-382 | every handler keeps the invariant |
| EntryRuns.EveryRunIsSound | entry.js:186-382 | over every run: no machine has both a parked poll and an unclaimed request, polls are parked in order of arrival, requests are claimed in order of arrival per machine and at most once, delivered at most once, each is on the queue or was taken by exactly one party, and an answer takes only a request of its own machine |
| EntryRuns.TakenIsFinal | entry.js:302-310 | whoever takes a request, answer or timeout, is the only one ever to |
| EntryRuns.ClosedIff | entry.js:376-381 | a poll is gone from its machine's list after its connection closes if and only if it had not been replied to, and no other poll is |
| EntryRuns.ReachesIffHeadIsLive | entry.js:192-199 | a request that finds polls parked reaches the machine, now or ever, if and only if the longest parked poll was not already told there is nothing |
| EntryRuns.IdlePollLosesNext | entry.js:367-381 | after a poll outlasts its hold, the machine's next request is lost to it |
| EntryRuns.NoHoldNoLoss | entry.js:349-382 | while no hold runs out, everything claimed is delivered |
| RepairLedger.TailIsEnough | control/agents.js:51-57 | reading only the last rows decides as reading all, when what is left out is over an hour old |
| RepairLedger.HourlyCounts | control/agents.js:138-140 | the count is the number of the app's repair rows, held ones included, no more than an hour old |
| RepairPasses.TickKeeps | control/agents.js:142-255 | one pass keeps the ledger's spacing and limits, and adds at most six rows |
| RepairPasses.RestartsAreApart | control/agents.js:83-87 | over any run of non-overlapping passes two restarts of one app are at least the cooldown apart, by when they were begun |
| RepairPasses.NeverOverTheLimit | control/agents.js:138-175 | in no hour, wherever it starts, is an app restarted more often than its policy allows |
| RepairPasses.TriesIff | control/agents.js:151-190 | an app is restarted if and only if it is down, not only forwarding, not stopped by its owner, in repair mode, outside maintenance, with fewer repair rows in the last hour than allowed, past its backoff and without any repair row within the cooldown |
| RepairPasses.HoldsIff | control/agents.js:151-175 | a row is written without a restart if and only if the app is down and its owner stopped it, or its mode is repair and maintenance, the hourly limit or its backoff stands against it |
| RepairPasses.DiagnosesIff | control/agents.js:239-243 | an app is diagnosed if and only if it is down, not only forwarding, not stopped by its owner, not switched off and without a diagnosis within the cooldown |
| RepairPasses.EveryRowHasItsTurn | control/agents.js:142-255 | over any run every row has a turn of an app that was down: none is restarted that its owner stopped, that is in maintenance or that its policy leaves alone, and a restart has its outcome beside it |
| RepairPasses.ThreeActions | control/agents.js:142-255 | a pass writes at most three repair rows and three diagnoses, and fewer only when it has gone through all of its apps |
| RepairBackoff.FailuresBackOff | control/intel.js:917-962 | after a pass whose turn at an app restarts it and finds it dead, whatever was before, the app has one failure more and is left alone for at least nine tenths of the wait for that number, over any passes until it is deployed again |
| RepairBackoff.OnlyDeploysClear | control/agents.js:142-190 | a pass that finds an app up clears its backoff if and only if it was deployed since: the six-hour branch is never taken |
| RepairBackoff.NeverDoubles | control/intel.js:917-919 | from no number of failures to the next does the wait double; it grows up to the fourth and then stays |
| RepairBackoff.EscalatedIff | control/intel.js:941-962 | in every reachable state the backoff is what the ledger says since the app's last deploy: as many failures as restarts found dead since one was found alive, a wait by that number from the latest of them, and the mark for a person exactly from three on |
| RepairBackoff.PassLearns | control/intel.js:941-962 | what a pass makes of its turn at an app that it restarts: found dead, one failure more and a wait of 5, 15, 60 or 360 minutes from the row, from nine to eleven tenths by the jitter; found alive, clear; refused or failed, as it was |
| RepairAgent.TailDecides | control/agents.js:75-87 | within a pass every decision from the last 400 rows is the one the whole ledger would give |
| RepairAgent.TailIs | control/agents.js:51-57 | what is read is the end of the ledger, 400 rows unless there are fewer |
| RepairAgent.ReadingTheEndIsEnough | control/agents.js:51-57 | over any run of passes five minutes apart the agents do exactly what they would do reading the whole ledger |
| RepairAgent.AgentsKeepTheirLimits | control/agents.js:138-227 | so reading 400 rows they keep cooldown and hourly limit |
| AgentNode.Agents.Append | control/agents.js:59-73 | appending, with the file cut to 400 rows when large, loses nothing that is still read |
| AgentNode.Agents.IsCoolingDown | control/agents.js:75-87 | the backward scan for the latest row on the key |
| AgentNode.Agents.RepairsInLastHour | control/agents.js:138-140 | the count of the app's repair rows in the last hour |
| AgentNode.Agents.NoteResult | control/intel.js:941-962 | success clears the backoff and its mark, failure counts, sets the next time and marks from the third on |
| AgentNode.Agents.RepairOne | control/agents.js:151-225 | the decision for one app in the order of the code, with the row it writes |
| AgentNode.Agents.RepairPass | control/agents.js:142-227 | the pass over the apps, ending after three actions |
| AgentNode.Agents.DiagnosePass | control/agents.js:232-255 | the diagnose pass over the apps |
| AgentNode.Agents.RunPass | control/agents.js:343-352 | a pass on the cut file does what a pass with the whole ledger would do |
| JsonText.QuotedSplits | manifest.js:74 | a string literal, escapes and surrogates included, can be read only one way whatever follows it |
| JsonText.EscapesAre | manifest.js:74 | the short escapes are those of JavaScript |
| JsonWriting.WriteIsInjective | manifest.js:74 | the text of a JSON value determines the value |
| JsonWriting.MembersAre | manifest.js:74 | members are written in braces with colons and commas and no space |
| KeyOrder.ArrangedKeeps | manifest.js:66-69 | sorting the keys and assigning them one by one gives the members in enumeration order, array indexes first, and drops one named __proto__ |
| KeyOrder.IndexesComeFirst | manifest.js:66-69 | members in enumeration order are the array indexes by number and then all other keys by code units |
| KeyOrder.IndexIff | manifest.js:66-69 | an index is the numeral of a number below 2^32 - 1, without leading zeros |
| Text.LessIff | manifest.js:66 | one key sorts before another exactly when at the first code unit in which they differ its own is smaller, or it is a proper beginning |
| CanonicalJson.SortKeepsMeaning | manifest.js:63-72 | sorting at every depth keeps the meaning: objects as maps, without members named __proto__ |
| CanonicalJson.OneMeaningOneValue | manifest.js:63-75 | there is only one sorted, printable value with a given meaning |
| CanonicalText.CanonicalIff | manifest.js:73-75 | two values have the same canonical text if and only if they have the same meaning: key order at every depth is ignored and nothing else but __proto__ members |
| CanonicalText.SortingTwiceIsOnce | manifest.js:63-75 | a prior deep sort changes nothing |
| ProtoMembers.MeaningIsFullIff | manifest.js:67-69 | a value means all it says if and only if no defined member is named __proto__ at any depth |
| ProtoMembers.TextDeterminesValue | manifest.js:73-75 | two values without such members have the same canonical text if and only if they are the same value |
| ProtoMembers.ProtoIsLost | manifest.js:67-69 | every value has the canonical text of the same value without its __proto__ members, which is another value if and only if it had one |
| Utf8.BytesIff | manifest.js:184 | two texts have the same UTF-8 bytes if and only if they are the same once half surrogate pairs are U+FFFD |
| Utf8.HalfPairBytes | manifest.js:184 | half a surrogate pair comes out as the three bytes EF BF BD |
| CanonicalBytes.SignedBytesIff | manifest.js:184 | the bytes that are signed are the same if and only if the values mean the same: the text escapes half pairs |
| SignedManifest.VerifyManifest | manifest.js:197-222 | the report: no problem exactly when the manifest is accepted, each kind of problem exactly when its check fails, in two rounds, and an exception exactly for an owner key that cannot be read |
| SignedManifest.VerificationRecomputes | manifest.js:183-206 | a manifest read back with the same meaning, keys in any order, is checked against the very bytes that were signed |
| SignedManifest.BuiltVerifies | manifest.js:163-222 | a manifest built by the owner and read back is accepted if and only if no key is pinned or the pinned one is the owner's |
| SignedManifest.SameBytesSayTheSame | manifest.js:206-207 | a manifest is checked against the signed bytes if and only if, its signature aside, it means what was signed |
| SignedManifest.AcceptedWasSigned | manifest.js:197-222 | when keys with the owner's fingerprint have signatures only on the owner's manifests, whatever is accepted under the owner's pin means, its signature aside, what one of those meant |
| SignedManifest.AcceptedSays | manifest.js:197-222 | an accepted manifest has the format text, an owner with a readable key named by that key's own fingerprint, and a signature of everything else by that key |
| Pae.EncodeIsInjective | attest.js:34-36 | the pre-authentication encoding determines type and body |
| Pae.EncodeReadsBack | attest.js:34-36 | a reader from the left gets back the type first, then the body, with nothing left over |
| Pae.SignedBytesIff | attest.js:34-36 | its bytes determine type and body up to half surrogate pairs, and no further |
| Utf8.LengthIsBytesIff | attest.js:35 | the lengths written are the byte lengths of DSSE version 1 if and only if the text is ASCII |

## Left out

- HTTP, sockets, TLS, DNS, docker, restic, openssl, service managers, pages and command line text: input and output around what is modelled.
- AES-GCM, scrypt, Ed25519 and SHA-256 are symbolic, and so is key wrapping; random bytes, clocks and delays are parameters.
- `crypt.js` key files, decoys and storage encryption; `acme.js`, `keys.js`, `backup.js`, `daemon.js`, `backend.js`, `heartbeat.js`, `control/server.js`, `control/redact.js`: plumbing, or members that would be easy.
- Relay.PollAndAck: takes the handler's verdicts as inputs; signature checks and the owner policy that decide them are not part of this model.
- RelayProtocol.NextKeepsInv: nodes are honest and one process at a time uses an outbox file; forged acknowledgements and two processes rewriting one file are not modelled.
- GithubRepo.Repo.PutFileRaw: a GitHub 422 is a conflict as in the code; why a request fails is an input.
- Rollup.Book: as `Rollup.FoldByDay`, without the derived percentage.
- Rollup.RollupFile.RecordSample: as `Rollup.Book`; a write that fails is not modelled, which the code ignores.
- GithubStorage.StorageIsAMap: operations run one after another; a put and a delete of the same key at the same time can leave blob and index apart, as the design accepts.
- GithubStorage.StorageDelete: any other JSON at the index path counts as an index without entries.
- Reading dates from text and time zones: times are integer milliseconds, days are counted from the epoch; a roll-up day sorts by number, which is its text order in the years 0 to 9999.
- Rollup.FoldByDay: the derived percentage of a day is not stored in the row; it is a rounded ratio of two of its figures.
- Trend.LinearTrend: over the reals, and in squares where the code takes square roots; the forecast drawn from the line is not modelled.
- Reliability.UptimeFrom: the other fields of the report are not modelled.
- BlueGreenSafety.RunIsSafeIff: one hook at a time, a process number is used only once, a kill ends the whole process, and pid files can be written and removed; a reused number, a child that outlives its group and overlapping hooks are not modelled.
- DeployHook.Host.Push: the docker form of the hook, deploy history, rollback and `stop` are not modelled.
- EntryNode.Node.HandleAnswer: the header line and body arrive at once; tokens, machine registration and body streaming are not modelled.
- RepairPasses.RestartsAreApart: the clock never runs back, rows can be written, and passes do not overlap; a manual pass from the control server is outside that.
- RepairPasses.NeverOverTheLimit: the policies do not change during a run and the limit is a whole number; that a down app is repaired in the end is not claimed, since held rows count for the cooldown and the limit.
- AgentNode.Agents.NoteResult: a result is noted at the time its row is written, a moment later than in the code; the times of the last success and failure, read only by the branch that is never taken, and the wait shown in a receipt are not kept.
- CanonicalText.CanonicalIff: a number is the text JavaScript prints for it, so 0 and -0 are one.
- SignedManifest.BuiltVerifies: what the manifest says of repository, run contract and lockfile closure is any content; keys, fingerprints and signatures are functions given.
- `attest.js` statements and its command line; only the encoding that is signed is modelled.
