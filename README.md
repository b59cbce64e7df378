# templar: artifact store, miner and validator rounds

This project is a Dafny model of the core of templar. templar is a
decentralised training system: miners train a shared model and publish
compressed gradients, one artifact per *window* of chain blocks, and
validators score the miners. The model covers three parts of it.

- **The artifact store** (`StorageManager`, src/tplr/storage.py).
  - Artifacts are named `<key>-<window>-<uid>-v<version>.pt`.
  - The local store lays them out as `local_store/<uid>/<window>/<file>`.
    It has an age-based cleanup (files older than `max_age_days`, then
    directories left empty) and a count-based cleanup (keep the newest
    `retention` artifacts of a uid and key).
  - The remote read path, `s3_get_object`, returns the `TOO_EARLY`/`TOO_LATE`
    status markers, the decoded object, or nothing.
  - The remote count-based cleanup matches object names against a pattern.
- **The miner** (neurons/miner.py).
  - Windows are computed from block numbers. The block listener and its
    reconnect backoff are modelled.
  - The timestamp query retries with doubling delays.
  - The global step and checkpoint cadence are tracked across rounds.
  - The validation pass splits gathered uids into counted and skipped.
  - The per-parameter collection of gathered `idxs`/`vals` lists feeds the
    update, and the debug lists of successful and skipped peers are built.
  - The aggregation-server catch-up replays every window from the
    checkpoint to a target that moves with the chain. Its 1-bit tensors
    are decoded with `unpack_binary_tensor`.
- **The validator** (neurons/validator.py).
  - The sync window advances on an offset gate. The own uid is appended to
    the peer list at start and removed each round.
  - Each evaluation pass is capped at four batches. The improvements are
    computed per peer, including the division by a zero mean loss.
  - The binary-indicator moving average uses `ma_alpha = 0.05`.
  - The checkpoint cadence is modelled.
  - The global step is merged as the maximum of the gathered peers' steps
    and its own, plus one.

Modules:

- `Common`: windows, sorting by key, and the maximum.
- `Naming`: artifact names, with the local and remote parsers.
- `Retention`: count-based eviction.
- `Objects`: stored objects and the remote read path.
- `LocalFiles`: the local file tree and age-based pruning.
- `Storage`: the store and buckets.
- `Gather`: what the miner does with a gather result.
- `Unpack`: the 1-bit decoder.
- `MinerNode`: the miner.
- `ValidatorNode`: the validator.

The model's inputs:

- I/O, the clock, the chain and the network are parameters.
- The file tree is a map from paths to files with their mtimes.
- A bucket is a map from keys to objects.
- `current_window` as the listener moves it is a trace of readings.
- What `load_aggregation`, `get` and `validate_compressed_gradients` return
  for each uid or window is a function.

Objects whose fields the source updates are classes with `modifies` frames:
`StorageManager`, `Bucket`, `GatherResult`, `Miner` and `Validator`. The
loops of the source are `while`/`for` loops with invariants. Each is proved
against a specification function, and that function's properties are
proved as lemmas.

## Model

| member | source | states |
|---|---|---|
| Common.WindowOf | neurons/miner.py:179 | the window of a block is the unique w with w * blocks_per_window <= block < (w + 1) * blocks_per_window |
| Common.WindowOfMonotone | neurons/miner.py:916-921 | a later block never maps to an earlier window, so the listener's window never moves back |
| Common.SortBy | src/tplr/storage.py:447 | the sort the cleanups use returns a permutation of its input ordered by the key |
| Common.SortBySorted | src/tplr/storage.py:502 | sorting an already ordered listing leaves it unchanged |
| Common.SortedDistinct | neurons/miner.py:599-601 | `sorted(list(set(...)))` is strictly increasing and has exactly the elements of its input |
| Common.MaxOf | neurons/validator.py:504 | `max(...)` of a non-empty list is one of its elements and bounds all of them |
| Common.CheckpointPeriodic | neurons/miner.py:669 | once a checkpoint is due, the next one is due exactly checkpoint_frequency steps later and none in between |
| Naming.ParseNatToString | src/tplr/storage.py:440-444 | `int()` of the decimal text of a window gives back that window |
| Naming.ArtifactNameShape | src/tplr/storage.py:30 | an artifact name is the key, a dash, the window's digits, and the uid/version suffix |
| Naming.ArtifactNameInjective | src/tplr/storage.py:48 | two artifact names of the same key, uid and version are equal only for the same window |
| Naming.ParseRemoteWindowShape | src/tplr/storage.py:489-492 | a name the remote pattern accepts is key-digits-suffix, and the parsed window is the value of those digits |
| Naming.RemoteWindowOfArtifact | src/tplr/storage.py:489-497 | the remote pattern accepts every artifact name of the uid and key and recovers its window |
| Naming.LocalWindowOfArtifact | src/tplr/storage.py:436-444 | the local prefix/suffix test and split on '-' recover the window of every artifact name whose key has no '-' |
| Retention.SortByWindow | src/tplr/storage.py:447 | the candidates sorted by window: a permutation, ordered by window |
| Retention.StaleCount | src/tplr/storage.py:449-450 | the number evicted is zero up to the retention and otherwise leaves exactly max(retention, 0) |
| Retention.EvictedAndKeptPartition | src/tplr/storage.py:447-452 | the evicted and the kept candidates together are exactly the listing, as a multiset |
| Retention.KeptCount | src/tplr/storage.py:449-450 | min(n, retention) candidates stay (none for a negative retention) and the rest are evicted |
| Retention.EvictsOldest | src/tplr/storage.py:447-452 | no evicted artifact has a later window than a kept one |
| Retention.KeptAreLatest | src/tplr/storage.py:447-452 | a candidate with a later window than a kept one is kept as well |
| Retention.NothingEvictedWithinRetention | src/tplr/storage.py:449 | with at most `retention` candidates nothing is evicted and everything is kept |
| Retention.CleanupIdempotent | src/tplr/storage.py:447-452 | cleaning the kept candidates again evicts nothing and keeps them all |
| Retention.RelistingEvictsNothing | src/tplr/storage.py:447-452 | a fresh listing of what one cleanup left behind has nothing to evict |
| Retention.SurvivorsAreKept | src/tplr/storage.py:450-452 | with distinct names, a listed artifact survives exactly when it is among the kept ones |
| Retention.EvictedFromListing | src/tplr/storage.py:450 | only listed artifacts are ever deleted |
| Objects.S3GetObject | src/tplr/storage.py:338-422 | no bucket or no object gives nothing; a JSON dict with a TOO_EARLY/TOO_LATE `__status` gives that marker; otherwise the object is written to the file or returned raw |
| Objects.S3GetObjectReturnsObject | src/tplr/storage.py:409-418 | every object that is not a non-dict JSON value and carries no marker comes back, raw or written to the file |
| Objects.RemoteGetResult | src/tplr/storage.py:113-154 | get_remote returns the status marker exactly when the object carries one, and the loaded state exactly when the object is a saved state dict |
| Objects.RemoteGetAfterStore | src/tplr/storage.py:41-67 | fetching the name that store_remote wrote gives back the stored state dict |
| LocalFiles.EmptyAfterPruning | src/tplr/storage.py:255-264 | a window directory is left empty exactly when none of its files was young enough to stay |
| LocalFiles.UidEmptyAfterCleaning | src/tplr/storage.py:250-267 | a uid directory is left empty exactly when none of its window directories keeps a file |
| Storage.ListLocalGradients | src/tplr/storage.py:430-446 | the walk lists every file of the uid whose name parses, with its window, each once, and nothing else |
| Storage.ListRemoteGradients | src/tplr/storage.py:482-501 | the listing holds every object the pattern accepts, with its window, each once, and nothing else |
| Storage.SelectStale | src/tplr/storage.py:447-450 | the stale artifacts are the oldest len - retention candidates by window |
| Storage.Bucket.DeleteObjects | src/tplr/storage.py:503-510 | deleting the stale keys removes exactly those objects from the bucket |
| Storage.StorageManager.constructor | src/tplr/storage.py:18-23 | the store starts over whatever local tree save_location already holds, since `__init__` touches no file |
| Storage.StorageManager.StoreLocal | src/tplr/storage.py:25-39 | the state dict is saved under local_store/uid/window/name (creating the directories), and then the age-based cleanup runs; it reports whether the save succeeded |
| Storage.StorageManager.GetLocal | src/tplr/storage.py:94-111 | returns the loaded local file (None when it is missing or does not load); after a load the uid's stale artifacts are removed |
| Storage.StorageManager.StoreRemote | src/tplr/storage.py:41-67 | without a bucket nothing is stored; otherwise the object is put under its artifact name when the upload succeeds |
| Storage.StorageManager.GetRemote | src/tplr/storage.py:113-154 | without a bucket, nothing; otherwise the marker, the loaded state or no data as s3_get_object found it, with the remote count-based cleanup after a load |
| Storage.StorageManager.LoadLatestCheckpoint | src/tplr/storage.py:169-192 | None without a checkpoints directory or checkpoint file; otherwise the checkpoint-*.pt file with the latest mtime, loaded |
| Storage.StorageManager.CleanupLocalData | src/tplr/storage.py:235-269 | exactly the files older than max_age_days * 86400 seconds go, then each window directory without a remaining file, then each uid directory without a remaining window directory |
| Storage.StorageManager.CleanupUidDir | src/tplr/storage.py:245-267 | one uid directory: its expired files go and it stays exactly when some window directory keeps a file |
| Storage.StorageManager.CleanupWindowDir | src/tplr/storage.py:250-264 | one window directory: its expired files go and it stays exactly when a file is left |
| Storage.StorageManager.CleanupLocalGradients | src/tplr/storage.py:424-457 | the files removed are exactly the evicted candidates of the uid's local listing |
| Storage.StorageManager.RemoveFiles | src/tplr/storage.py:449-457 | os.remove of each stale file removes exactly those files |
| Storage.StorageManager.CleanupRemoteGradients | src/tplr/storage.py:459-515 | without a bucket nothing happens; otherwise the objects deleted are exactly the evicted candidates of the remote listing |
| Storage.LocalCleanupLeaves | src/tplr/storage.py:433-452 | the local cleanup never touches another uid's files or files whose names do not parse, and a listed file survives exactly when it is kept |
| Storage.RemoteCleanupLeaves | src/tplr/storage.py:484-510 | the remote cleanup never touches objects the pattern rejects, and a listed object survives exactly when it is kept |
| Storage.StoreThenGetLocal | src/tplr/storage.py:25-111 | a local get after a successful local store returns the stored state dict |
| Storage.StoreThenGetRemote | src/tplr/storage.py:41-154 | a remote get after a successful remote store returns the stored state dict |
| Storage.CleanupLocalTwice | src/tplr/storage.py:424-457 | running the local count-based cleanup twice deletes nothing the second time |
| Storage.LocalRelisting | src/tplr/storage.py:430-452 | a local listing taken after a cleanup has nothing to evict |
| Storage.CleanupRemoteTwice | src/tplr/storage.py:459-515 | running the remote count-based cleanup twice deletes nothing the second time |
| Storage.RemoteRelisting | src/tplr/storage.py:482-508 | a remote listing taken after a cleanup has nothing to evict |
| Gather.StateOfEntry | neurons/miner.py:453 | `state_dicts.get(uid, {})` gives the state dict the uid sent |
| Gather.StateOfMissing | neurons/miner.py:453 | a uid that sent no state dict gets the empty dict |
| Gather.ValidationPartition | neurons/miner.py:451-467 | each gathered uid lands in exactly one of the valid and invalid lists, as often as it was gathered, by the verdict on its state dict |
| Gather.ValidUidsAppend | neurons/miner.py:453-467 | validation keeps the gathered order: both lists of a concatenation are the concatenations of the lists |
| Gather.AllValidKept | neurons/miner.py:451-469 | when every state dict passes, the uids are unchanged and nothing is skipped |
| Gather.NoneValidSkipped | neurons/miner.py:451-469 | when no state dict passes, no uid is counted and every uid is skipped |
| Gather.ValidateGathered | neurons/miner.py:451-469 | `uids` becomes the valid uids in order, the invalid ones are appended to `skipped_uids`, and the state dicts stay |
| Gather.GatheredAppend | neurons/miner.py:546-554 | collection distributes over the entries of `state_dicts`, in insertion order |
| Gather.EveryEntryContributes | neurons/miner.py:546-554 | an entry holding both keys contributes its idxs and vals lists at its place in the collected lists |
| Gather.GatheredEmpty | neurons/miner.py:547 | when no entry holds both keys, both collected lists are empty |
| Gather.GatheredIdxsNonEmpty | neurons/miner.py:557 | `all_idxs` is non-empty exactly when some entry holding both keys has a non-empty idxs list |
| Gather.GatheredValsNonEmpty | neurons/miner.py:557 | `all_vals` is non-empty exactly when some entry holding both keys has a non-empty vals list |
| Gather.CollectParameter | neurons/miner.py:541-556 | the loop over `state_dicts` builds the collected idxs and vals lists of one parameter |
| Gather.UpdatedParams | neurons/miner.py:540-570 | exactly the parameters with both collected lists non-empty are updated |
| Gather.ApplyGathered | neurons/miner.py:540-570 | the loop over `named_parameters` updates exactly the parameters of UpdatedParams, in order |
| Gather.Without | neurons/miner.py:600 | the set difference keeps exactly the peers not skipped |
| Gather.SuccessfulPeers | neurons/miner.py:599-601 | `successful_peers` is strictly increasing and holds exactly the peers not skipped |
| Gather.SkippedPeers | neurons/miner.py:602 | `skipped_peers` is the skipped uids in non-decreasing order, repeats kept |
| Gather.DebugListsPartition | neurons/miner.py:598-602 | the two debug lists share no peer, and each gathered peer is in exactly one of them |
| Unpack.Mask | neurons/miner.py:866 | the mask of bit i is 1 << i |
| Unpack.Bit | neurons/miner.py:867 | `(b & mask) >> i` is 1 exactly when bit i is set and otherwise 0 |
| Unpack.Sign | neurons/miner.py:869 | `bits * 2 - 1` is +1 for a set bit and -1 for a clear one |
| Unpack.UnpackedAt | neurons/miner.py:865-869 | flat position 8k + i of the decoded tensor is the sign of bit i of byte k |
| Unpack.UnpackPack | neurons/miner.py:849-871 | decoding the packing of any ±1 sequence gives it back |
| Unpack.PackUnpack | neurons/miner.py:849-871 | packing the decoding of any byte sequence gives it back, so the decoder loses nothing |
| Unpack.UnpackBinaryTensor | neurons/miner.py:849-871 | the zero buffer of prod(shape) elements is filled one bit plane at a time into the decoded tensor |
| Unpack.ProcessLoadedData | neurons/miner.py:819-847 | the metadata fields are copied as found; a tensor is unpacked for exactly the model parameters the data holds |
| MinerNode.DelayClosedForm | neurons/miner.py:383-408 | the k-th retry delay is min(2^k, 60), always between 1 and 60 seconds |
| MinerNode.QueryTimestamp | neurons/miner.py:381-408 | at most six attempts; success on the first answer, converted from milliseconds to seconds; failure re-raised after the sixth; the sleeps are 1, 2, 4, ... capped at 60 |
| MinerNode.BlockListener | neurons/miner.py:928-949 | the backoff after a run of failures is min(2^failures, 60); a clean return resets it; one sleep per failure, and the sleep at each failure is the backoff then, min(2^(failures since the last clean return), 60) |
| MinerNode.Applied | neurons/miner.py:718-813 | the replayed windows are exactly the visited windows that have an aggregation |
| MinerNode.AppliedIncreasing | neurons/miner.py:707-813 | the replayed windows keep the increasing order of the visited ones |
| MinerNode.AppliedSnoc | neurons/miner.py:718-813 | a visited window is replayed after the earlier ones exactly when it has an aggregation |
| MinerNode.ObservedBounds | neurons/miner.py:916-921 | the windows the miner observes never go back and never pass the last reading |
| MinerNode.Miner.constructor | neurons/miner.py:177-185 | the window of the current block, start_window equal to it, and global and window steps at 0 |
| MinerNode.Miner.Handler | neurons/miner.py:916-921 | the block and its window are recorded; nothing else moves |
| MinerNode.Miner.Resume | neurons/miner.py:214-259 | the global step from start_window, then from the loaded checkpoint; catch-up runs exactly when the checkpoint is behind the current window |
| MinerNode.Miner.StepOptimizer | neurons/miner.py:577-578 | each round steps the optimizer and the scheduler once; nothing else moves |
| MinerNode.Miner.BeginRound | neurons/miner.py:269-272 | the round's window is the current window, and the global step is that window minus start_window |
| MinerNode.Miner.FinishRound | neurons/miner.py:664-669 | the global and window steps each move up by one, and a checkpoint is due when the new global step is a multiple of checkpoint_frequency |
| MinerNode.Miner.Catchup | neurons/miner.py:693-817 | the catch-up outcome holds (the target follows the observed current window, and the loop stops at the first test the next window fails); the optimizer and scheduler step once per replayed window; the global step ends at target - start_window |
| MinerNode.CatchupLoop | neurons/miner.py:702-813 | every window from checkpoint + 1 to the target is visited once, in order; the target is the current window at the loop's last look, so it rises with the readings; each visited window was at most the target held when it was tested, so the loop stops at the first look after which the next window is past the target; exactly the windows with an aggregation are replayed |
| MinerNode.CatchupOutcomeUnique | neurons/miner.py:712-716 | the readings decide the catch-up: two outcomes of the same inputs have the same target, visited windows and replayed windows |
| MinerNode.CatchupVisitsEachWindowOnce | neurons/miner.py:707-813 | the visited windows are strictly increasing and are exactly checkpoint < w <= target; the replayed ones are those of them with an aggregation; the target is the initial window or one the miner observed |
| ValidatorNode.LossPass | neurons/validator.py:373-387 | a pass runs min(batches, 4) batches and yields their mean loss, or 0 when none ran |
| ValidatorNode.MeanLossIgnoresLaterBatches | neurons/validator.py:377 | batches after the fourth never change the mean loss |
| ValidatorNode.MeanLossBounds | neurons/validator.py:387 | the mean loss of a pass that ran lies between the smallest and largest batch losses |
| ValidatorNode.EvaluatePeers | neurons/validator.py:345-443 | without a zero mean loss, both improvement dicts hold exactly the peers whose gradient arrived, each with 100 * (1 - after / before), and the dicts are equal; otherwise the ZeroDivisionError is raised at the first received peer, in list order, whose pass before had mean 0 |
| ValidatorNode.UpdatedAverages | neurons/validator.py:450-454 | every uid with both improvements gets (1 - alpha) * previous (0 when there is none) + alpha * indicator; every other uid keeps its average |
| ValidatorNode.UpdatedOnStep | neurons/validator.py:450-454 | updating one more uid changes only that uid's entry, computed from its current entry |
| ValidatorNode.BlendInUnitRange | neurons/validator.py:454 | a blend of a value in [-1, 1] with a ±1 indicator stays in [-1, 1] |
| ValidatorNode.UpdatedAveragesInUnitRange | neurons/validator.py:450-454 | the moving averages stay in [-1, 1] across updates |
| ValidatorNode.EqualImprovementsLower | neurons/validator.py:443-454 | because the second improvement equals the first, every scored uid's indicator is -1 and its average moves toward -1 |
| ValidatorNode.BlendAll | neurons/validator.py:450-454 | the loop over the uids of the first dict builds the updated averages |
| ValidatorNode.FirstIndex | neurons/validator.py:314 | the position list.remove deletes: the first occurrence of the element |
| ValidatorNode.RemoveFirstCount | neurons/validator.py:313-314 | removing the first occurrence leaves one fewer of that element and the others untouched |
| ValidatorNode.Validator.constructor | neurons/validator.py:164-196 | the sync window starts at the current window, the global step is 0, there are no peers or averages, and alpha is the later 0.05 |
| ValidatorNode.Validator.LoadPeers | neurons/validator.py:200-206 | the configured peers, or the comms peers when none are configured, with the own uid appended when absent |
| ValidatorNode.Validator.AdvanceSync | neurons/validator.py:273-283 | waits until the sync window is more than the offset behind the current window, then advances it by one; the step window is one past it |
| ValidatorNode.Validator.RefreshPeers | neurons/validator.py:288-314 | the round's peers are the comms peers with the first occurrence of the own uid removed |
| ValidatorNode.Validator.UpdateMovingAverages | neurons/validator.py:450-454 | the averages become UpdatedAverages of the old ones with alpha 0.05 |
| ValidatorNode.Validator.CheckpointDueNow | neurons/validator.py:475 | a checkpoint is written exactly when the global step is a multiple of checkpoint_frequency |
| ValidatorNode.GradientParams | neurons/validator.py:515-543 | a parameter gets a gradient exactly when the gathered state dict has both its `idxs` and its `vals` attribute |
| ValidatorNode.ApplyGatheredState | neurons/validator.py:515-543 | the loop over named_parameters updates exactly the parameters of GradientParams, in order |
| ValidatorNode.Validator.MergeGlobalStep | neurons/validator.py:502-554 | with a gather result, the global step becomes max(peer steps + [own]) + 1 and so exceeds every reported step, and the optimizer and scheduler each step once; without one nothing moves |
| ValidatorNode.Validator.Handler | neurons/validator.py:559-564 | the block and its window are recorded, and comms' window moves with it |

## Left out

- Tensor numerics are not modelled: decompression, the transformer decode,
  the optimizer and scheduler maths, `get_lr_at_step`, and weight decay. For
  both the miner and the validator, the model records which parameters
  receive a gathered gradient and how many optimizer and scheduler steps
  run. It does not record the new parameter values, nor the validator's
  zero_grad and sign of the gradient.
- The catch-up's L2 comparison against the debug dict only logs. It is not
  part of this model.
- Logging and wandb are not modelled, and neither are the exceptions the
  post-loop wandb log raises (validator.py:457-471). It reads
  `loss_improvement[eval_uid]` for the last peer of the list. When that peer
  was skipped for a None result (validator.py:350-352), this is a KeyError,
  even when earlier peers were scored. In the first round, with nobody
  scored or no peers, `eval_uid` or `loss_before_per_batch` is unbound. The
  crash comes after the moving-average update and before the checkpoint
  test (validator.py:475) and the merge (validator.py:502-554).
- asyncio, threads and sleeps are not modelled. The listener's updates to
  `current_window` are a trace of readings, and the sleeps are returned as
  the sequence of their lengths.
- Floats are modelled as `real`, so rounding is not modelled.
  - Common.WindowOf: `int(block / blocks_per_window)` divides in floating
    point; the model uses exact integer division, which differs only for
    blocks beyond 2^53.
  - Unpack.UnpackBinaryTensor: the float32 values are ±1 integers.
- Unpack.UnpackBinaryTensor: requires prod(shape) == 8 * len(packed). A
  mismatched shape is not modelled; torch would broadcast or raise there.
- ProcessLoadedData carries the same requirement for every parameter the
  data holds.
- Naming.LocalWindowOfArtifact: requires a key without '-'. The local
  parser splits the file name on '-', so for such a key `parts[1]` is a
  piece of the key, and the source does not recover the window either.
- The remote pattern interpolates key, uid and version unescaped. A '.' in
  them, or a regex metacharacter, is modelled as a literal character.
- `int()` is modelled as accepting ASCII digits only. Python's `int()` also
  accepts signs, surrounding whitespace, underscores and non-ASCII digits.
  The remote pattern's `(\d+)` (storage.py:489) also matches any Unicode
  decimal digit, and `int()` converts such a capture. An object name whose
  window field uses them matches in the source but not in the model.
- The local tree is modelled at a fixed depth: every LocalPath is
  local_store/<uid>/<window>/<file>. Two cases cannot be stated. One is a
  file directly under local_store/<uid>, which the os.walk of
  storage.py:435 would still list. The other is a subdirectory inside a
  window directory, where os.remove raises (storage.py:260) and the single
  try of storage.py:244-269 abandons the rest of the cleanup.
- Bucket listing is modelled as one page. The list_objects_v2 page limit of
  1000 keys is not modelled.
- store_bytes, get_bytes, s3_head_object, s3_put_object internals,
  load_remote_checkpoint and _cleanup_temp_file are not part of this model.
  Neither are temporary files, which the model treats as written and removed
  at once.
- Exceptions raised inside the cleanups and by os/boto calls are not
  modelled. cleanup_local_data catches its own errors, so store_local
  returns False only when torch.save itself fails; that is the `saveOk`
  input.
- The count-based cleanup runs after a successful get, not after a store.
  The model follows the code here.
- ValidatorNode.Validator.AdvanceSync: requires the readings to contain a
  window far enough ahead. The source waits forever otherwise.
- ValidatorNode.Validator.LoadPeers: `self.peers = self.comms.peers` and the
  later append and remove alias the comms list. The model copies the
  sequence, so the aliasing is not modelled.
- ValidatorNode.BlendAll: builds the new averages and assigns them once,
  rather than updating the dict entry by entry.
- MinerNode.Miner.Catchup: runs the loop on locals and writes the miner's
  fields after it. The fields move inside the loop in the source, and
  nothing reads them meanwhile.
- MinerNode.Miner.Valid and ValidatorNode.Validator.Valid require
  blocks_per_window > 0 and checkpoint_frequency != 0, and so do the
  constructors. With a zero value the source raises ZeroDivisionError: at
  miner.py:179 and :669, and at validator.py:166 and :475. That error is not
  modelled.
- Naming.ParseRemoteWindow: rejects a name ending in '\n' after the
  suffix. The pattern's `$` also matches just before a final newline, so
  the source would list such an object. This case is not modelled.
- Peer selection, the chain, wallets and bittensor subscriptions are
  parameters, not modelled logic.
