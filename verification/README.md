# Models and proofs for the vulos relay

Dafny models of the parts of the relay and its client that carry whole-run guarantees, with proofs of those guarantees.
`dafny verify dfyconfig.toml` checks everything.

* **Public-object cache and pin role.** `Cbor`, `ChunkTree`, `ChunkProof`, `ProofWire` and `Manifest` model the chunk tree of
  a manifest, its range proofs and their wire form. The tree is computed three ways, by a stack, by levels and by the split
  rule of section 2.1 of RFC 6962, and all three agree. Paths are those of section 2.1.1 of RFC 6962. The wire form is the
  deterministic CBOR of sections 3 and 4.2.1 of RFC 8949. The hash is a parameter: a soundness result says "the claim holds,
  or these two different inputs, both hashed by the tree or the verifier, have one digest".
* **Pin store.** `PinModel` has the data and the reading of an index, `PinRuns` a machine whose steps are the single disk
  effects and lock sections of pin, unpin, quarantine and restart, with crashes between any two of them, and `PinStore` the
  object itself, one operation at a time, with `PinPlan` for what a pin is to do. `PinClosure` says when the store is
  closed, `PinSafety` when the pin in flight is whole too, `PinCrash` what a restart keeps, and `PinBudget` follows the
  budget over restarts. `PinReads` adds concurrent readers and a disk that may rot. `PinQuarantine` says what a quarantine does to a pin in flight; `PinBroken` and
  `PinReadRuns` have runs to each kind of failure. `Sums` has the arithmetic of sums over maps.
* **Read cache.** `LruStore` models the byte-capped cache with expiry as a key order and a map.
* **Usage metering.** `Metering` has the meter and a protocol of meter, network and control plane. The network loses, delays
  and repeats; the control plane applies each report id once; a restart takes a boot id not used before.
* **Rendezvous queue, rate limiter, replay cache, autoscaler, entitlement gate.** `Rendezvous`, `RateLimit`, `Replay`,
  `Detector` with `Autoscale`, and `Gate`: each has the object and a theorem over all its runs. The gate and the autoscaler
  are machines over the steps of concurrent callers.

An object of the source that changes in place is a class. Its methods are proved against functions on values, and runs are
sequences of those functions or of steps of a machine. Times, randomness, fetched bytes, responses and the outcome of disk
writes are parameters or are chosen freely by the model.

Where the code does something other than its comments, or than one would expect, the model follows the code:

* A wrong chunk count may leave the index open (`ThreeLeavesAsTwo`). The remark at client/src/chunkProof.js:385-391 says
  more. The index is fixed exactly when no other leaf shares the claimed sides (`FixedIndexSound`, `UnfixedIndexMisleads`).
* A CBOR map head of 2^63 pairs or more has its count wrapped (`WrappedMapIsEmpty`, `PairedExact`).
* Manifests of different bytes share an address (`AddressDoesNotBindBytes`), against the remark at
  tunnel/pubcache/store.go:135-136. Which bytes do is settled by `PartsDecideBytes`.
* An index with two complete records for one root makes load keep objects no pin names. `LoadedKeysReferencedIff` has the
  exact condition. The store never writes such an index.
* A quarantine inside a pin can break the store in four ways. It can take an object the pin has counted, directly or because
  only bad pins named it (`LossExact`, `LostRun`). It can take a file the pin is storing (`FileLossExact`, `StoreLossExact`).
  It can leave an object to nobody, after the commit (`ReleasingLeakExact`) or while a failed commit is undone
  (`UndoingLeakExact`); the next reclaim removes such an orphan. There is a run for each. The store stays closed exactly as
  long as every step is fine (`RunClosedExact`), and the pin in flight is whole as well exactly as long as every step is
  harmless (`RunSafeExact`). Crash safety, accounting and the budget hold in all runs.
* A file that rots after it was verified is served without another look (`RottenServed`), against the promise at
  tunnel/pubcache/pin.go:63-67. Rot at any other time is caught (`ServedVerifies`).
* A requested lifetime whose nanoseconds exceed 64 bits wraps (`ClampExact`, `ClampWraps`).
* The token-bucket bound fails when idle buckets are evicted before they are full, or for a burst below one (`WindowExact`,
  `WindowWithinNanosecond`, `SmallBurst`).
* An operation that ends between the decision of a tick and its dispatch can take the pool one node past a bound
  (`CeilingMissed`, `FloorMissed`), never further (`BoundsMissedByOne`). `CrossesExact` says when.
* A sender called join can use up the nonce key of another sender's join (`JoinKeyClash`); ids without a colon and other than
  that word never collide (`KeyExact`).
* A revocation sweep already past its check can miss a revoke once (`SweepMisses`). `RevokeIsFinal` says exactly when.

## Model

| member | source | states |
|---|---|---|
| Cbor.HeadRoundTrip | tunnel/pubcache/proof.go:252-268 | an encoded head reads back as written, whatever bytes follow |
| Cbor.HeadCanonical | tunnel/pubcache/cbor.go:39-86 | every accepted head is the minimal encoding of what it decodes to |
| Cbor.SkipExact | tunnel/pubcache/cbor.go:89-145 | the scanner accepts exactly the encodings of well-formed values within the depth limit, and stops where they stop |
| Cbor.SkipComplete | tunnel/pubcache/cbor.go:89-145 | a well-formed value is skipped to its end whatever follows it |
| Cbor.SkipSound | tunnel/pubcache/cbor.go:89-145 | what was skipped is the encoding of a well-formed value |
| Cbor.SkipExtends | tunnel/pubcache/cbor.go:89-145 | the span depends only on the bytes it covers |
| Cbor.WrappedMapIsEmpty | tunnel/pubcache/cbor.go:103-118 | a map head announcing 2^63 pairs scans as an empty map, because the doubled count wraps |
| Cbor.PairedExact | tunnel/pubcache/cbor.go:105-121 | a value the scanner accepts has two children for every pair its maps announce, at every depth, if and only if every map head in it is below 2^63 |
| Cbor.SkipPaired | tunnel/pubcache/cbor.go:89-145 | so what is skipped is such a value, its pairs complete exactly when no map head in it wraps |
| Cbor.ScanValue | tunnel/pubcache/cbor.go:89-145 | the recursive scanner with its offset loop computes the specified span for every buffer and depth |
| Cbor.MapExact | tunnel/pubcache/cbor.go:158-196 | the map reader accepts exactly a head plus key/value spans with strictly increasing keys and nothing left over, and returns those entries |
| Cbor.ReadUintKeyedMap | tunnel/pubcache/cbor.go:158-196 | the loop over the offset computes that reading, errors included |
| Cbor.StringsSound | tunnel/pubcache/cbor.go:201-241 | accepted array elements re-encode to the bytes they were read from |
| Cbor.StringsComplete | tunnel/pubcache/cbor.go:201-241 | encoded elements of the right width and prefix are read back |
| Cbor.ReadStrings | tunnel/pubcache/cbor.go:222-240 | the element loop of the array readers computes that reading, errors included |
| ChunkTree.InputsDistinct | tunnel/pubcache/merkle.go:21-41 | leaf inputs and node inputs never coincide, and each determines its parts |
| ChunkTree.MthJoin | tunnel/pubcache/merkle.go:47-78 | joining a power-of-two block with a block no larger is the split rule of section 2.1 of RFC 6962 |
| ChunkTree.ReduceKeepsMth | tunnel/pubcache/proof.go:61-71 | one level of pairing with promotion does not change the split-rule root |
| ChunkTree.ReduceLevel | tunnel/pubcache/proof.go:61-71 | the pairing loop computes one level |
| ChunkTree.LevelManifestRoot | client/src/chunkProof.js:191-219 | the browser's root exists if and only if the list is non-empty and every address has the supported prefix, and repeated level reduction gives the split-rule root |
| ChunkTree.PushLeaf | tunnel/pubcache/merkle.go:61-69 | pushing a leaf keeps the stack a decomposition of the prefix into decreasing power-of-two blocks, each with its root |
| ChunkTree.FoldStack | tunnel/pubcache/merkle.go:70-78 | folding the leftover blocks gives the split-rule root of the whole list |
| ChunkTree.MerkleRoot | tunnel/pubcache/merkle.go:47-78 | the relay's stack form gives the split-rule root, so all three roots are equal |
| ChunkProof.StepSides | tunnel/pubcache/proof.go:82-104 | the sides of an audit path depend on count and index only |
| ChunkProof.SidesInjective | tunnel/pubcache/proof.go:122-169 | in one tree the sides determine the leaf |
| ChunkProof.SidesBound | tunnel/pubcache/proof.go:122-169 | a tree of at most 2^d leaves has paths of at most d elements |
| ChunkProof.AuditStepsReduce | tunnel/pubcache/proof.go:82-104 | the path of a leaf is its own level's sibling, if it has one, then its parent's path one level up |
| ChunkProof.SidesReduce | tunnel/pubcache/proof.go:137-160 | the same for the sides, which is all the verifier tracks |
| ChunkProof.BuildChunkProof | tunnel/pubcache/proof.go:82-104 | the level loop builds the recursive audit path of section 2.1.1 of RFC 6962, or refuses an index out of range |
| ChunkProof.VerifyChunkProof | tunnel/pubcache/proof.go:122-169 | the verifier's loop decides the recursive acceptance predicate |
| ChunkProof.FoldAudit | tunnel/pubcache/proof.go:137-169 | folding the audit path of any leaf reaches the root |
| ChunkProof.FoldBinds | tunnel/pubcache/proof.go:137-169 | a path that folds to the root is the audit path of some entry, or two different hashed inputs collide |
| ChunkProof.AcceptedProves | tunnel/pubcache/proof.go:122-169 | whatever count and index are claimed, an accepted chunk is an entry of the committed list on the claimed sides, or a collision is exhibited |
| ChunkProof.ProvesAccepted | tunnel/pubcache/proof.go:122-169 | an entry on the claimed sides is accepted if and only if its path is within the verifier's limit of 40 |
| ChunkProof.TrueCountFixesIndex | tunnel/pubcache/proof.go:82-169 | with the true count only entry index is accepted, and only along the path the builder makes, or a collision is exhibited |
| ChunkProof.AnyCountIsMember | tunnel/pubcache/proof.go:122-169 | with any count, index and path an accepted chunk is some entry of the list, or a collision is exhibited |
| ChunkProof.FixedIndexSound | tunnel/pubcache/proof.go:122-169 | a wrong count still fixes the index when no other leaf shares the claimed sides |
| ChunkProof.UnfixedIndexMisleads | tunnel/pubcache/proof.go:122-169 | otherwise another entry is accepted under the claimed index |
| ChunkProof.ThreeLeavesAsTwo | client/src/chunkProof.js:385-391 | under a count of two, chunk 2 of any three-chunk list is accepted as chunk 1 |
| ChunkProof.RootBinds | tunnel/pubcache/merkle.go:82-88 | equal roots come from equal chunk lists, whatever their lengths, or exhibit a collision |
| ProofWire.WriteChunkProof | tunnel/pubcache/proof.go:177-187 | the writer's loop produces the canonical encoding |
| ProofWire.ReadChunkProof | tunnel/pubcache/proof.go:193-249 | the reader's loop computes the specified decoding, errors included |
| ProofWire.DecodeSound | tunnel/pubcache/proof.go:193-249 | an accepted body is the encoding of its result, within the limits |
| ProofWire.DecodeComplete | tunnel/pubcache/proof.go:177-249 | decoding an encoding gives back index and path |
| ProofWire.ProofBodyExact | tunnel/pubcache/proof.go:177-249 | a body decodes to a proof if and only if it is that proof's encoding within the limits |
| ProofWire.VerifyChunkResponse | client/src/chunkProof.js:493-500 | accepts exactly a body that decodes, answers the requested index, and verifies |
| ProofWire.PathBound | tunnel/pubcache/proof.go:82-104 | a list of at most 2^d entries has paths of at most d elements, so at most 20 within the item limit |
| ProofWire.ResponseComplete | tunnel/pubcache/proof.go:82-249 | the served body decodes to the audit path and is accepted with any bytes of that chunk's address |
| ProofWire.ResponseSound | client/src/chunkProof.js:493-500 | an accepted response for the true root and count carries the requested entry and is the served body byte for byte, or exhibits a collision |
| Manifest.AddrArrayExact | tunnel/pubcache/cbor.go:201-241 | the array reader accepts exactly the encodings of non-empty lists of prefixed addresses within the limit |
| Manifest.ReadAddrArray | tunnel/pubcache/cbor.go:201-241 | the loop computes that reading, errors included |
| Manifest.UintFieldExact | tunnel/pubcache/verify.go:107-122 | a field is accepted exactly when it is the encoding of an unsigned value of the field's width |
| Manifest.IdFieldExact | tunnel/pubcache/verify.go:142-205 | an id field is read as an address exactly when it is that address's encoding |
| Manifest.VerifiedManifestChunks | tunnel/pubcache/verify.go:142-205 | the field loop computes the specified verdict, first failing entry included |
| Manifest.ManifestExact | tunnel/pubcache/verify.go:142-205 | a manifest is accepted at an address with a chunk list if and only if the address is the list's root and the bytes are the canonical encoding of the list with some uncovered parts |
| Manifest.ManifestFetched | tunnel/pubcache/verify.go:142-205 | a well-formed manifest is accepted exactly under the address that is both its root and its own id, and is a mismatch under any other |
| Manifest.ManifestAccepted | tunnel/pubcache/verify.go:57-71 | canonical bytes of a list are accepted at its root |
| Manifest.KeyFieldRejected | tunnel/pubcache/verify.go:157-161 | a key field after entries that are in order is rejected by its own error |
| Manifest.VerifyExact | tunnel/pubcache/verify.go:57-71 | the gate lets through, for every kind, exactly what is genuine: a canonical manifest of a list with that root, or bytes with that hash |
| Manifest.PartsDecideBytes | tunnel/pubcache/verify.go:142-205 | two bodies of one chunk list are equal if and only if their uncovered parts agree |
| Manifest.AddressBindsChunks | tunnel/pubcache/verify.go:142-205 | two manifests accepted at one address carry the same chunk list, or exhibit a collision |
| Manifest.AddressDoesNotBindBytes | tunnel/pubcache/store.go:133-140 | every chunk list has manifests of different bytes accepted at one address, so a cache may hold bytes other than those stored again |
| Manifest.AcceptedManifestServes | tunnel/pubcache/verify.go:142-205 | every index of an accepted manifest of at most 2^d chunks has a path of at most d elements, at most 20 in all, whose served body decodes unchanged and is accepted with any bytes of the chunk's address |
| PinModel.LoadedPinsHold | tunnel/pubcache/pin.go:222-293 | every loaded pin is the last complete record of its root, and all its objects are retained |
| PinModel.LoadKeeps | tunnel/pubcache/pin.go:222-293 | the last complete record of a root is loaded unchanged |
| PinModel.LoadedKeysReferencedIff | tunnel/pubcache/pin.go:222-309 | load retains exactly what its pins name if and only if no superseded record names an object no kept record names |
| PinModel.UniqueRootsReferenced | tunnel/pubcache/pin.go:744-792 | documents naming each root once meet that condition |
| PinModel.DuplicateRootLeaks | tunnel/pubcache/pin.go:222-293 | a document with two complete records for one root retains an object no pin names |
| PinRuns.WantsExact | tunnel/pubcache/pin.go:495-519 | a pin wants exactly its root and, for a manifest, every chunk it names, and can be read exactly when the manifest verifies |
| PinRuns.WantsOrdered | tunnel/pubcache/pin.go:504-519 | the chunks come in the order in which the manifest first names them |
| PinRuns.StepAccounted | tunnel/pubcache/pin.go:528-620 | every step of every interleaving keeps the counters exact and within budget |
| PinClosure.BootClosed | tunnel/pubcache/pin.go:222-309 | a restart over any disk whose index names each root once is closed |
| PinClosure.QuarantineClosed | tunnel/pubcache/pin.go:417-440 | a quarantine at any point but an undone commit leaves the store closed, whatever it takes from the pin in flight |
| PinClosure.StepClosed | tunnel/pubcache/pin.go:417-792 | every step, crashes included, keeps the store closed if and only if it is fine: a commit that succeeds holds all it names, a registered object has its file, a release leaves nothing unnamed, and a quarantine leaves nothing to a record being undone |
| PinClosure.RunClosedExact | tunnel/pubcache/pin.go:417-792 | a run stays closed throughout if and only if every step of it is fine |
| PinSafety.StepSafe | tunnel/pubcache/pin.go:417-792 | every step keeps the store closed and the pin in flight whole if and only if it is harmless: a quarantine takes nothing the pin has counted, leaves nothing to a record being undone and leaves nothing a finished pin claims unnamed, and no removal takes a file just stored |
| PinSafety.RunSafe | tunnel/pubcache/pin.go:417-792 | a run of harmless steps keeps both throughout |
| PinSafety.RunSafeExact | tunnel/pubcache/pin.go:417-792 | a run keeps the store closed and every pin in flight whole throughout if and only if all its steps are harmless |
| PinSafety.HarmlessFine | tunnel/pubcache/pin.go:417-792 | harmless steps are fine |
| PinCrash.RunSturdy | tunnel/pubcache/pin.go:417-792 | in every run, with quarantines and crashes anywhere, the index can be used, names each root once and lists every committed pin |
| PinCrash.CommittedKept | tunnel/pubcache/pin.go:222-309 | a restart keeps a committed pin unchanged if and only if all the files it names are there |
| PinCrash.CrashSafety | tunnel/pubcache/pin.go:222-309 | from any crash point of any run at all, with quarantines anywhere, the restart has no pin that misses an object, no object unreferenced and an exact counter, and keeps a committed pin if and only if all the files it names are there |
| PinCrash.FineRunKept | tunnel/pubcache/pin.go:222-309 | after a run of fine steps it keeps every committed pin |
| PinCrash.HarmlessRunKept | tunnel/pubcache/pin.go:222-309 | so it does after a run of harmless steps |
| PinCrash.NoResurrection | tunnel/pubcache/pin.go:222-309 | in every interleaving a restart brings back only pins held when the index was last written: those still held, or those that since then were unpinned, had an object quarantined, had their commit undone, or were found incomplete at a restart |
| PinQuarantine.RunOrdered | tunnel/pubcache/pin.go:495-519 | in every run a pin wants each object once, and only a commit holds the lock while writing the index |
| PinQuarantine.LossExact | tunnel/pubcache/pin.go:417-440 | a quarantine takes a counted object if and only if it is the bad one, or it is unclaimed and every pin that names it names the bad one |
| PinQuarantine.LostRun | tunnel/pubcache/pin.go:556-647 | in every continuation such a pin is still under way without the object, or has failed, or has committed a record naming an object that is not held |
| PinQuarantine.ReleasingLeakExact | tunnel/pubcache/pin.go:526-539 | a quarantine after the commit orphans an object if and only if the pin still claims it and every pin that names it names the bad one |
| PinQuarantine.UndoingLeakExact | tunnel/pubcache/pin.go:632-644 | a quarantine while a commit is undone orphans an object if and only if it is unclaimed and only the undone pin names it without naming the bad one |
| PinQuarantine.OrphanRun | tunnel/pubcache/pin.go:526-539 | short of another quarantine or a crash, an orphan is still held and still unnamed when the pin has ended |
| PinQuarantine.OrphansReclaimed | tunnel/pubcache/pin.go:682-704 | the next unpin or quarantine between operations takes every orphan away |
| PinQuarantine.FileLossExact | tunnel/pubcache/pin.go:431-433 | a quarantine marks the file a pin is about to store or has just stored for removal if and only if it names it |
| PinQuarantine.StoreLossExact | tunnel/pubcache/pin.go:605-608 | a file stored after that is lost if and only if its removal is still due |
| PinQuarantine.FileLostRun | tunnel/pubcache/pin.go:605-620 | in every continuation without a crash such a pin can only register an object that has no file |
| PinBroken.CountedObjectLost | tunnel/pubcache/pin.go:556-647 | a run from a restart to a held pin whose object is not held, by a quarantine of that object or of another one its only pin names |
| PinBroken.ReleasedObjectLeaks | tunnel/pubcache/pin.go:526-539 | a run from a restart to an idle store that holds an object no pin names, by a quarantine after the commit |
| PinBroken.UndoneObjectLeaks | tunnel/pubcache/pin.go:632-644 | the same by a quarantine while a commit is undone |
| PinReadRuns.StoredFileLost | tunnel/pubcache/pin.go:374-396 | a history from a restart to a held pin whose object has no file: a reader finds the object held, it is unpinned and pinned again, and the reader's late quarantine removes the new file |
| PinBudget.BootBudgeted | tunnel/pubcache/pin.go:222-309 | a restart whose retained files are within the budget starts within it |
| PinBudget.StepBudgeted | tunnel/pubcache/pin.go:417-792 | every step, crashes and quarantines included, keeps the disk and what a restart would retain within the budget |
| PinBudget.RunBudgeted | tunnel/pubcache/pin.go:417-792 | in every run from there, over any number of crashes and with quarantines anywhere, the byte counter is the sum of unique object sizes, at most maxBytes, and one pin's new bytes are at most maxPinBytes |
| PinReads.NextEarned | tunnel/pubcache/pin.go:374-405 | every step of readers, store and rot keeps whatever is relied on verified, or recorded as rotted while relied on |
| PinReads.ServedVerifies | tunnel/pubcache/pin.go:374-405 | in every interleaving of reads, pins, quarantines, restarts and rot, over any disk, the bytes a read serves are genuine under their key (hash to the address, or are a canonical manifest of it), unless it trusted a mark and the file rotted in this life of the process while a mark, a reader or a pin relied on it |
| PinReads.RottedWhen | tunnel/pubcache/pin.go:374-405 | what is recorded as rotted did so at such a moment |
| PinReadRuns.RottenServed | tunnel/pubcache/pin.go:386-405 | a history in which a file that rots after its mark is served |
| PinStore.PinStore.WriteObject | tunnel/pubcache/pin.go:710-739 | writes one file atomically or leaves the disk alone |
| PinStore.PinStore.WriteIndex | tunnel/pubcache/pin.go:744-792 | writes an index listing each pin once, or leaves the old one |
| PinStore.PinStore.Reclaim | tunnel/pubcache/pin.go:682-704 | keeps exactly the objects that a pin names or a pin in flight claims, with their files |
| PinStore.PinStore.Unpin | tunnel/pubcache/pin.go:650-676 | refuses a missing pin or another owner without effect; otherwise removes that pin, keeps exactly the objects and files other pins name, unchanged, and reports an error exactly when the index cannot be written |
| PinStore.PinStore.Quarantine | tunnel/pubcache/pin.go:417-440 | removes exactly the pins that name the object, keeps exactly the objects and files the others name, unchanged |
| PinStore.PinStore.Load | tunnel/pubcache/pin.go:222-309 | rebuilds the specified state from any disk, sweeps orphans, and yields a valid store when roots are unique; fails exactly for an unusable index, which it leaves alone, or a failing disk |
| PinStore.PinStore.Sweep | tunnel/pubcache/pin.go:295-309 | deletes exactly the files no retained object names |
| PinStore.PinStore.Get | tunnel/pubcache/pin.go:374-405 | returns only bytes that are genuine under their key, and all that are unless the disk fails; a file that is not is quarantined |
| PinStore.PinStore.WantList | tunnel/pubcache/pin.go:495-519 | the root first and then each chunk of the manifest once, every one of them and nothing else, or an error exactly when the manifest does not verify |
| PinStore.PinStore.Acquire | tunnel/pubcache/pin.go:569-620 | unless the write fails, brings in one object exactly when it is to be had, genuine and within the three budgets; otherwise changes nothing and says which of these failed |
| PinStore.PinStore.Rollback | tunnel/pubcache/pin.go:526-554 | removes what the pin added, its files and its claims |
| PinPlan.PlannedExact | tunnel/pubcache/pin.go:469-621 | the step-by-step plan goes through exactly when there is room for a pin, the root can be had and read, and each object it names is held or to be had, genuine and within the budgets after all before it; it then adds exactly what is not held |
| PinPlan.RefusedExact | tunnel/pubcache/pin.go:484-603 | a refusal is for the first object that does not fit, by what is wrong with it |
| PinStore.PinStore.Pin | tunnel/pubcache/pin.go:469-647 | a failed or repeated pin leaves the whole state and disk as they were; unless the disk fails it succeeds exactly when the root can be pinned; a successful pin names the root and every chunk of its manifest, has each of them in the maps and on disk, each new one genuine, and is in the index |
| PinStore.UnpinnedSafe | tunnel/pubcache/pin.go:650-704 | unpinning keeps the store closed and well kept |
| PinStore.QuarantinedSafe | tunnel/pubcache/pin.go:417-440 | so does quarantine between operations |
| PinStore.AddedUndone | tunnel/pubcache/pin.go:526-554 | rolling back what was added restores the former state |
| PinStore.PinnedSafe | tunnel/pubcache/pin.go:623-647 | committing a pin over what was added keeps the store closed and well kept |
| PinStore.LoadedSafe | tunnel/pubcache/pin.go:222-309 | what load builds from an index naming each root once is closed and well kept |
| LruStore.Store.Get | tunnel/pubcache/store.go:93-112 | returns a held entry exactly within its lifetime and moves it to the front; an expired one leaves list, map and counter |
| LruStore.Store.Put | tunnel/pubcache/store.go:121-147 | a body over a cap changes nothing; a held entry keeps its bytes and gets a new time; a new one goes in front and the rest is cut to the cap |
| LruStore.Store.Evict | tunnel/pubcache/store.go:150-159 | keeps the longest front part within the cap |
| LruStore.Store.RemoveAt | tunnel/pubcache/store.go:161-166 | removes one entry from list, map and counter alike |
| LruStore.RunByRecency | tunnel/pubcache/store.go:93-166 | in every run the list is in order of last use, without repeats, and within the cap |
| LruStore.EvictsLeastRecentlyUsed | tunnel/pubcache/store.go:121-159 | a new object is kept, no more is dropped than the cap demands, and everything dropped was last used before everything kept |
| LruStore.LiveSinceStored | tunnel/pubcache/store.go:93-147 | in every run a hit returns the bytes given by the store that began the entry's life |
| LruStore.HitExact | tunnel/pubcache/store.go:93-147 | in every run a held object is returned exactly within its lifetime, counted from the last call that stored it |
| Metering.Meter.AddBytes | tunnel/server/metering.go:117-133 | adds to one account's pending bytes; ignores an empty account or a non-positive count |
| Metering.Meter.AddSession | tunnel/server/metering.go:136-152 | adds one to one account's pending sessions |
| Metering.Meter.Drain | tunnel/server/metering.go:155-170 | empties pending into items that carry exactly what was pending |
| Metering.Meter.TakeRetry | tunnel/server/metering.go:173-182 | empties the retry queue and returns it |
| Metering.Meter.Requeue | tunnel/server/metering.go:187-200 | puts failed batches back under their ids; the newest stay, as many as the cap allows, and all of them within it |
| Metering.Meter.NextReportId | tunnel/server/metering.go:204-206 | gives the next number of this boot |
| Metering.Meter.FlushOnce | tunnel/server/metering.go:237-274 | sends old batches under their old ids and then a new one, and keeps those that failed and no others, all of them within the cap |
| Metering.StepBalanced | tunnel/server/metering.go:117-274 | every step of meter, network and control plane keeps the books balanced |
| Metering.StepTraceable | tunnel/server/metering.go:173-206 | every minted report stays applied, queued or given up, under one id |
| Metering.RunInvariant | tunnel/server/metering.go:117-274 | both hold in every run with losses, delays, repeats and restarts |
| Metering.ExactlyOnce | tunnel/server/metering.go:117-274 | per account and unit, recorded equals billed plus pending plus lost in a restart plus unapplied queued plus unapplied shed, so nothing is billed twice |
| Metering.GivenUpExact | tunnel/server/metering.go:187-200 | in every run a report is given up only by a restart that loses it, or by a queue longer than the cap of which it is among the oldest |
| Metering.RequeuedStep | tunnel/server/metering.go:187-200 | whatever a flush has left over is queued again or given up for want of room |
| Rendezvous.Queue.constructor | tunnel/rendezvous/queue.go:69-77 | an empty queue with a default key cap and sweep interval |
| Rendezvous.Queue.Sweep | tunnel/rendezvous/queue.go:208-230 | drops exactly the expired blobs and empty keys and recounts bytes, at most once per interval |
| Rendezvous.Queue.Deposit | tunnel/rendezvous/queue.go:104-137 | after the sweep a blob is taken exactly when its size, the key cap and the recipient's quotas allow it, and then stands last in the recipient's queue; each refusal is given exactly for its own cap and stores nothing |
| Rendezvous.Queue.Pickup | tunnel/rendezvous/queue.go:143-163 | returns the live blobs in deposit order and deletes none of them |
| Rendezvous.Queue.Ack | tunnel/rendezvous/queue.go:168-205 | removes exactly the named blobs, says how many, and never needs the clamp at zero |
| Rendezvous.DepositedValid | tunnel/rendezvous/queue.go:104-137 | a deposit keeps counters exact and every quota and the key cap |
| Rendezvous.AckedValid | tunnel/rendezvous/queue.go:168-205 | so does an acknowledgement |
| Rendezvous.SweptValid | tunnel/rendezvous/queue.go:208-230 | so does a sweep |
| Rendezvous.RunValid | tunnel/rendezvous/queue.go:104-230 | they hold in every run |
| Rendezvous.TakenExact | tunnel/rendezvous/queue.go:104-137 | in every run a deposit is taken exactly when what is pending after the sweep leaves room for it |
| Rendezvous.RunAgrees | tunnel/rendezvous/queue.go:104-230 | under a forward clock the queue shows each key the live part of the log of its taken and unacknowledged deposits |
| Rendezvous.PickupIsLiveLog | tunnel/rendezvous/queue.go:143-163 | a pickup at the end of any run returns exactly that, in deposit order |
| Rendezvous.DeliveredUntilAcked | tunnel/rendezvous/queue.go:104-205 | a taken blob is in every later pickup until it is acknowledged or expires |
| Rendezvous.ClampExact | tunnel/rendezvous/queue.go:90-99 | without a request the default holds; with one the lifetime is the smaller of request and ceiling if and only if the 64-bit product fits or wraps to at least the ceiling |
| Rendezvous.ClampWraps | tunnel/rendezvous/queue.go:90-99 | a request of 9223372037 seconds gets a negative lifetime |
| RateLimit.Configured | tunnel/server/ratelimit.go:51-68 | a rate or burst that is not positive disables the limiter; otherwise rate and burst are as given and unset limits take their defaults |
| RateLimit.Limiter.Sweep | tunnel/server/ratelimit.go:115-129 | evicts exactly the idle buckets, at most once per interval |
| RateLimit.Limiter.Allow | tunnel/server/ratelimit.go:72-111 | one call has the specified effect and result; the nameless key always passes |
| RateLimit.SweptAvail | tunnel/server/ratelimit.go:115-129 | eviction changes what no key may spend |
| RateLimit.AllowedAvail | tunnel/server/ratelimit.go:72-111 | a call spends exactly what it grants, touches no other key, and refuses if and only if a token is missing or the key cap is reached |
| RateLimit.Window | tunnel/server/ratelimit.go:72-129 | any window of any run grants one key at most burst plus rate times its length |
| RateLimit.WindowExact | tunnel/server/ratelimit.go:72-129 | for a whole burst that bound holds of every run if and only if a bucket fills within the idle time |
| RateLimit.WindowWithinNanosecond | tunnel/server/ratelimit.go:72-129 | for every burst of at least one token it holds of every run if a bucket fills within a nanosecond more than the idle time, and fails of some run if it takes two nanoseconds more or longer |
| RateLimit.SmallBurst | tunnel/server/ratelimit.go:83-92 | a burst below one grants a first request it does not cover |
| Replay.Guard.Remember | client/src/signaling.js:537-541 | drops the oldest key at the cap and appends the new one |
| Replay.Guard.Signal | client/src/signaling.js:478-550 | delivers a keyed peer's frame exactly when it is verified, fresh and not remembered; a peer without a key passes unless authentication is required |
| Replay.Guard.Join | client/src/signaling.js:440-470 | pins the sender of a verified, fresh and unremembered join |
| Replay.CacheIsLast | client/src/signaling.js:537-541 | in every run the cache holds the keys of the last thousand frames acted on |
| Replay.AcceptedExact | client/src/signaling.js:514-541 | a frame is acted on if and only if it is verified, fresh, and its key is not among those thousand |
| Replay.TwiceNeedsThousand | client/src/signaling.js:514-541 | acting twice on one sender and nonce takes a thousand other frames acted on in between |
| Replay.NeverTwice | client/src/signaling.js:525-541 | with at most 1001 frames acted on in every span of 35 seconds no signed frame is acted on twice |
| Replay.KeyExact | client/src/signaling.js:458-535 | for senders without a colon in their id and not called join, two frames share a key exactly when kind, sender and nonce agree |
| Replay.JoinKeyClash | client/src/signaling.js:458-535 | a sender called join can use up the key of another sender's join |
| Replay.OwnHistory | client/src/signaling.js:514-541 | among such senders a frame is acted on if and only if it is verified, fresh, and not itself among the last thousand acted on, so that one sender's nonces never count against another |
| Replay.ThousandSuffice | client/src/signaling.js:525-541 | with 1002 frames one can be, so the bound is tight |
| Replay.PinnedExact | client/src/signaling.js:440-470 | joins pin a peer if and only if one was acted on, for good |
| Detector.WithDefaults | tunnel/autoscale/autoscale.go:149-180 | each default and sentinel as documented, the low watermark strictly below the high one, and a sane setting is kept |
| Detector.Detector.Observe | tunnel/autoscale/autoscale.go:213-258 | one reading has the specified effect on the timers and the specified action |
| Detector.TimerIsStart | tunnel/autoscale/autoscale.go:213-258 | in every run each timer is the time the current run past its watermark began |
| Detector.LastIsLatest | tunnel/autoscale/autoscale.go:262-267 | the last-action time is the latest of all actions |
| Detector.CooldownApart | tunnel/autoscale/autoscale.go:213-267 | any two actions are at least a cooldown apart, whatever the clock did |
| Detector.ActExact | tunnel/autoscale/autoscale.go:213-267 | the detector acts if and only if an unbroken run of readings past the watermark has lasted the sustain time, every earlier action is a cooldown away, and the node count leaves room |
| Autoscale.Pool.Add | tunnel/autoscale/pool.go:101-112 | adds a node, or refreshes one and keeps its health, drain and load; ignores a blank id |
| Autoscale.Pool.DrainCandidate | tunnel/autoscale/pool.go:258-289 | none if and only if there is no node but self; otherwise before every other node: an unhealthy or draining one first, then the least loaded, then the least id, in whatever order members are visited |
| Autoscale.LessExact | tunnel/autoscale/pool.go:275 | ids compare as strings do |
| Autoscale.FirstUnique | tunnel/autoscale/pool.go:258-289 | that node is unique |
| Autoscale.GuardedStep | tunnel/autoscale/autoscale.go:452-505 | every step keeps at most one operation in flight and never tears down self |
| Autoscale.RunDrains | tunnel/autoscale/autoscale.go:488-505 | in every run a node is draining only while it is torn down, unless it was from the start, so a failed decommission strands no node |
| Autoscale.UndisturbedStep | tunnel/autoscale/autoscale.go:397-505 | a step crosses no bound and keeps room for what is decided or under way, unless an operation ends while a decision is pending |
| Autoscale.BoundsKept | tunnel/autoscale/autoscale.go:397-505 | in every run in which no operation ends while a decision is pending, from a pool of any size, at most one operation is in flight, no growth passes MaxNodes, no removal goes below MinNodes, and self stays |
| Autoscale.BoundsHold | tunnel/autoscale/autoscale.go:397-505 | a pool that starts within both bounds then stays within them |
| Autoscale.BoundsMissedByOne | tunnel/autoscale/autoscale.go:397-505 | in every run at all, from a pool of any size, a change crosses a bound by at most one node |
| Autoscale.CrossesExact | tunnel/autoscale/autoscale.go:452-505 | an operation that changes the size crosses its bound if and only if the bound left no room at its dispatch |
| Autoscale.CeilingMissed | tunnel/autoscale/autoscale.go:411-419 | an operation finishing between decision and dispatch lets the pool exceed MaxNodes by one |
| Autoscale.FloorMissed | tunnel/autoscale/autoscale.go:411-419 | likewise MinNodes |
| Gate.ClassifyExact | tunnel/server/cpclient.go:130-157 | a response revokes exactly if it is a 404 or a 200 that carries revoked, is an entitlement exactly if it is any other 200 that decodes, and is a transient error otherwise |
| Gate.EntitlementGate.Refresh | tunnel/server/gate.go:133-159 | an account is on record as revoked afterwards if and only if it was before or this response revokes it; an entitlement is recorded as given, a transient error changes nothing, and no other account changes |
| Gate.EntitlementGate.AllowConnect | tunnel/server/gate.go:61-75 | a fresh decision decides; otherwise it is let in exactly by a response that entitles and allows it within quota, and not once revoked |
| Gate.EntitlementGate.AllowContinue | tunnel/server/gate.go:80-107 | as above, but a transient error leaves the last known decision, or none, to allow; a revoked account is refused and stays revoked |
| Gate.EntitlementGate.DefinitivelyRevoked | tunnel/server/gate.go:166-181 | true if and only if a revoke is on record afterwards |
| Gate.EntitlementGate.MarkOverQuota | tunnel/server/gate.go:188-200 | marks one account and changes no revocation |
| Gate.RevokedExact | tunnel/server/gate.go:133-200 | in every interleaving an account is on record as revoked if and only if some response said 404 or revoked; no other status, lost reply or undecodable body does it, and nothing undoes it |
| Gate.RevokeIsFinal | tunnel/server/gate.go:61-181 | after that every caller for it that has no result yet is turned away, except exactly a sweep that was past its check and whose own question fails |
| Gate.SweepCuts | tunnel/server/gate.go:166-172 | a sweep that starts after the revoke reports it |
| Gate.SweepMisses | tunnel/server/gate.go:173-179 | a sweep overtaken by another caller's revoke can miss it once |
| Gate.StepAllowed | tunnel/server/gate.go:133-200 | an account is on record as allowed exactly when a response just cleared it and it is not revoked, or it was before and nothing was decided on it |
| Gate.StepConnects | tunnel/server/gate.go:61-75 | a connect is let in exactly by a fresh decision that allows it or by a response that clears it |
| Gate.StepContinues | tunnel/server/gate.go:80-107 | so is a live session, which after a transient error also goes on unless a decision on record forbids it |
| Gate.ConnectNeedsAnswer | tunnel/server/gate.go:61-75 | a connect succeeds only if the control plane has answered that the account is allowed and within quota |

## Left out

- The hash function, signatures and other cryptography: the hash is a parameter, a signature check an input.
- The text form of addresses and store keys (base64url, `kind:address`): keys are pairs of kind and address, or a name for an ill-formed root.
- The JSON of the index file, its order of records and temporary files: an index is a list of records, absent, or unusable; a completed rename is durable and a removal succeeds.
- Rot of files outside reads: the machine for pins, quarantines and restarts, the budget and the serial store change files by their own steps only.
- What a caller's object source does besides returning bytes, such as filling the read cache.
- The pointers of the cache's linked list: `LruStore` keeps a sequence of keys and a map, so aliasing of list nodes is not captured.
- `LruStore` statistics and purge; listing and statistics of pins: reading of fields.
- Fixed integer widths other than the map count in CBOR and the lifetime in the queue: counters and times are unbounded.
- Rounding: tokens and load ratios are reals.
- Clocks that run backwards: the queue, the limiter and the exact form of the detector's rule are stated for a forward clock.
- RateLimit.WindowExact: is stated for an idle time of at least four nanoseconds, because a shorter one takes the fallback sweep interval, and for a whole number of tokens, because the remainder a fractional burst can leave depends on the rate; WindowWithinNanosecond covers every burst up to one nanosecond.
- RateLimit.WindowWithinNanosecond: is likewise stated for an idle time of at least four nanoseconds; Window has no such restriction.
- The shared limiter without keys at tunnel/server/ratelimit.go:150-170 and the limiter at tunnel/pubcache/ratelimit.go: the same bucket without eviction, or the same limiter again.
- Pins made by a signed prekey and the import of peer keys on a join: one-entry maps that keep the first value.
- The autoscaler's load sampling, the region-aware choice of a node to route to, and the health checker's loop: `Autoscale` lets health and load change at any time. Nodes carry id, address and region only.
- Outside changes to the pool's membership while the autoscaler runs.
- The background loops of meter, gate sweep and autoscaler: runs take their steps at any time.
- The generation of blob ids and boot ids: taken as inputs; boot ids are assumed not to repeat.
- HTTP, WebSocket and proxy plumbing, the long-poll notifier, agent handoff, the upstream fetcher, feeds, registry, token store, presence, address screening, cost arithmetic, console and user interface.
- The Rust crates described beside this code.
