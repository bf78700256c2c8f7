# Verified model of the platform's validators

This project models the core of the platform repository's fail-closed validators, strict
parsers and one crash-recovery transaction, and proves what they are relied on for. Each
module follows one source file.

- **ProtectedHost, ProtectedRoots, Mountinfo, MountinfoText** -
  `validate_protected_host_contract.py`: reading the kernel's mount listing, choosing the one
  mount that carries an archive root, and refusing every alias of it. `MountinfoText` says by its
  characters which line is read as which record, `ProtectedRoots` which declarations and targets
  are refused, and for what. The model has its own account of path resolution over an unbounded mount
  table, and the choice is proved to mean what it is taken to mean there.
- **Kubeadm, KubeadmLayout, KubeadmSound, KubeadmText, KubeadmGrammar, KubeadmStream** -
  `validate_kubeadm_config.py`: the strict YAML-subset reader. `Kubeadm` holds a specification parser on the remaining tokens
  and the source's own index-threading parser, loop by loop, proved equal to it. The other
  modules print trees in the canonical two-space layout and prove the parser and the printer
  inverse, for tokens, for texts and for whole streams of documents. `KubeadmGrammar` and
  `KubeadmStream` are the subset as a grammar, from characters to streams, which the parser
  is proved to decide.
- **TransactionFiles, Transaction, TransactionRuns, TransactionCrashes, TransactionSessions,
  TransactionSignals, TransactionPairs** - `ci/destructive_transaction_fixture.py`: the
  journalled rollback. `TransactionFiles` says what each operation does to a directory,
  `Transaction` is the class, and `TransactionRuns` is the same protocol as a machine whose
  steps are single file operations, on a clock that only goes forward, with a signal, a kill,
  a restart or a foreign file between any two of them. `TransactionCrashes` says which
  directories a kill can leave, which of them can ever be settled again, and which never;
  `TransactionSessions` ties that to the stage at which the kill falls; `TransactionSignals`
  says how a signalled run ends; `TransactionPairs` has two live processes.
- **ReleaseState, ReleaseOutline, ReleaseReaders, ReleaseEmission, ReleaseText** -
  `validate_release_state.py`: two independent readers of one YAML text, one that maps the whole
  of it and one that narrows to a path, and the re-emission of a section. `ReleaseText` states
  all three on the characters of the lines.
- **Extents, Ledger** - `validate_reserved_storage_evidence.py`: extent maps of the reserved
  volumes, and the ledger of bytes they are promised.
- **IngressRules, AdminIngress, IngressGuard, IngressTransaction, IngressListing** -
  `validate_ingress_guard.py` and `validate_admin_ingress_contract.py`: the expected firewall
  rules, the interface contract, the check of a decoded ruleset, and what installing and removing
  the guard does. `IngressListing` spells out the accepted documents object by object.
- **PiNetwork, PiNetworkHosts** - `validate_pi_network.py`: address blocks, policy rules, bound
  addresses, routes, and the separation of the cluster's ranges from all of them.
  `PiNetworkHosts` says of a host's data alone when the gate is passed. `Arithmetic` holds the
  facts about quotients behind it and behind the strides of `TestRunner`.
- **Encodings** - `validate_kubeconfig_snapshot.py`: canonical Base64 (RFC 4648, sections 3.5
  and 4) and canonical PEM.
- **ReleaseEpoch** - `ci/platform_release_epoch.py`: release tags (Semantic Versioning 2.0.0,
  section 2), epochs and chains of publications. `Numerals` holds decimal notation.
- **RuntimeInventory, RuntimeCensus** - `validate_runtime_inventory_evidence.py`: who owns which
  Pod. `RuntimeCensus` says of the evidence lists alone when an inventory is accepted.
- **TestRunner** - `ci/run_python_tests.py`: the strided partition and the execution census.

`Text` is shared: white space, trimming, splitting and joining.

Where the source computes by expressions and recursion the model is functions; where it
changes things in loops the model is a method with that loop, proved equal to a function,
and the lemmas are then about that function. A function that both a method and its
specification use is pinned by a lemma that says in other terms, on the characters or the
data, exactly which inputs give which result. `dafny verify dfyconfig.toml` checks everything.

## What the proofs found

Nine properties hold only under a condition; each is proved in its exact form, with the
other side of the equivalence and concrete cases that fail. One size check and one comparison
are proved redundant.

- `TransactionCrashes.CrashPointExact`, `TransactionCrashes.SalvageExact`: recovery after a
  kill succeeds exactly from a prepared journal without a receipt among known entries, or from
  a clean closed state. A kill inside a started write, or between the receipt and the closed
  journal (`WindowStrands`, reached by `LeftoverReached` and `EarlyReceiptReached`), leaves a
  directory that no later events settle (`StrandedForever`); every other directory can still
  be settled. `TransactionSessions.CrashPointByStage` reads the outcome off the stage.
- `TransactionSignals.SignalledRunExact`: a run signalled in its wait ends well if and only if
  `cleanup.continue` appears and its cleanup is measured within the bound. The hold runs on the
  clock of the bound, so a run that nobody tells to continue (`AbandonedRunExact`) is denied
  over its prepared journal; a later recovery settles it (`DeniedRunRecovers`).
- `TransactionPairs.PairStepExact`: nothing keeps a second process out, and a step of one live
  process breaks what the other relies on exactly in a clash of their stages. Runs without a
  clash are safe (`ClashFreeSafe`); with one, two recoveries can both end well and leave a
  directory that every later recovery refuses (`TwoRecoveriesDisagree`).
- `IngressTransaction.RemovalRestoresAbsence`: deleting the guard restores absence only when
  no table of another name carries a `table` member of the owned name; the ruleset check does
  not look at that member, the absence check does (`RollbackCanMissAbsence`).
- `Mountinfo.KernelLineReads`: the reader inverts the kernel's listing only for paths without
  white space beyond the ASCII space; `SomeMountMisread` has a no-break space.
- `ReleaseEpoch.NextTagReads`: the next tag is itself accepted only within 64 characters
  (`SomeTagIsLast`).
- `ReleaseEpoch.PinnedExact`: a chain forces a release at a pinned tag to its pinned source
  exactly when something that looks at the source is published on it (v0.1.68, v0.1.77,
  v0.1.80, v0.1.81 and v0.1.82 as bases), or when it was itself published at a historical tag.
  So v0.1.83 as a first release is free, and so is v0.1.77 or v0.1.80 as the last one
  (`UnforcedWitness`).
- `KubeadmText.TextExact`: of all trees exactly the documents are read back from their text:
  non-empty mappings of distinct keys, where a key starts with a dash only beside the dash of a
  sequence item, and scalars without a tab, without a line break of `splitlines`, and without
  `&`, `*` or `!` after white space. `DashedKeyMisread` and `ScalarExact` single out the key and
  the scalar, and `SomeTextsMisread` has an instance of each.
- `Encodings.EncodeDecode`: encoding inverts decoding exactly on the texts without excess
  padding and without left-over bits; those two are what the canonical reader refuses of the
  decodable texts (`ExcessPaddingRefused`, `LeftOverBitsRefused`).
- `Encodings.DerBoundUnreachable` and `TestRunner.CensusAddsUp`: the size check on the decoded
  PEM body can never fail, and the comparison of totals never fails alone.
- `RuntimeCensus.DeploymentUidsDistinct`: the ReplicaSet checks rule out two Deployments of one
  UID, which the identity map of Deployments itself accepts.

## Model

| member | source | states |
|---|---|---|
| ProtectedHost.UnescapeEscape | scripts/validate_protected_host_contract.py:627-636 | Unescaping a mount field inverts the kernel's octal escaping on every path. |
| ProtectedHost.UnescapeExact | scripts/validate_protected_host_contract.py:627-636 | On a field without raw separators, unescaping yields a path exactly when the field is the kernel's own spelling of it. |
| ProtectedHost.RenderPathParses | scripts/validate_protected_host_contract.py:696-703 | Every path in normal form is read back from its text. |
| ProtectedHost.OverlapIsReach | scripts/validate_protected_host_contract.py:738-741 | Two file-system subtrees overlap exactly when some path under the one record's mount point leads into the other subtree. |
| ProtectedHost.SelectExact | scripts/validate_protected_host_contract.py:744-795 | A mount is returned exactly when identifiers are distinct, no relevant mounts are stacked, everything at or below the target resolves through that mount, its type is durable, and no other record reaches the archive's files. |
| ProtectedHost.AliasFreedom | scripts/validate_protected_host_contract.py:744-795 | Below an accepted target everything resolves through its mount, and any path that any record leads to a file of the archive is itself below the target and resolves through that same mount. |
| ProtectedRoots.RefusalExact | scripts/validate_protected_host_contract.py:744-795 | A target is refused with a reason exactly when that is the first thing wrong: repeated identifiers, stacked mounts around it, a mount below it, no mount it resolves through, one of a type that is not durable, or another record that reaches the archive's files. |
| ProtectedHost.CheckRoots | scripts/validate_protected_host_contract.py:222-248 | The report on archive roots holds an error for a declaration exactly when the declaration deserves it: repeated, not canonical, too broad, or nested with an earlier one. |
| ProtectedRoots.RootExact | scripts/validate_protected_host_contract.py:222-233 | A declaration names a root exactly when it is a slash and the root's parts, plain file names, with one slash between them. |
| ProtectedRoots.DeservedExact | scripts/validate_protected_host_contract.py:222-248 | The error deserved by a declaration, told from the texts: standing there before, naming no root, one less than two parts below /home or one part below the four other hierarchies, or one nested with an earlier one. |
| ProtectedHost.AcceptedRootsApart | scripts/validate_protected_host_contract.py:222-248 | Accepted roots are canonical, dedicated, and pairwise neither equal nor nested. |
| ProtectedHost.StorageDisjoint | scripts/validate_protected_host_contract.py:744-795 | Two accepted roots located in one mount table share no (device, file-system path), although each alias check saw one root only. |
| Mountinfo.ParseLines | scripts/validate_protected_host_contract.py:674-724 | The listing is accepted exactly when its line count is within the limits, every line parses and no identifier repeats; the records are the lines' own, in order. |
| Mountinfo.ReadRecordsNormal | scripts/validate_protected_host_contract.py:689-703 | Every record that was read has a positive identifier and two paths in normal form. |
| Mountinfo.KernelLineReads | scripts/validate_protected_host_contract.py:679-724 | The kernel's line of a mount is read back as that mount exactly when its two paths hold no control character and no white space but the space. |
| Mountinfo.SomeMountMisread | scripts/validate_protected_host_contract.py:683-684 | There is a well-formed mount whose line is not read back: its directory name holds a no-break space. |
| MountinfoText.LineExact | scripts/validate_protected_host_contract.py:681-723 | A line is read as a record exactly when its words before the first bar are the decimal identifiers, the device pair and the kernel's octal spelling of two normal paths without control characters, and the first word after it is a file-system type whose small letters the record has. |
| Kubeadm.ParseBlockAt | scripts/validate_kubeadm_config.py:231-237 | The index-threading block parser returns the specification's tree and stops at the token where the specification does, or fails as it does. |
| Kubeadm.ParseMappingAt | scripts/validate_kubeadm_config.py:169-189 | The mapping loop agrees with the specification from any index, indentation and entries collected so far. |
| Kubeadm.ParseSequenceAt | scripts/validate_kubeadm_config.py:194-226 | The sequence loop agrees with the specification from any index and indentation. |
| Kubeadm.ParseItemMappingAt | scripts/validate_kubeadm_config.py:208-220 | A mapping item, whose first value may stand four columns in, agrees with the specification. |
| Kubeadm.Tokenize | scripts/validate_kubeadm_config.py:135-153 | The token loop returns exactly the tokens of the significant lines, the first error, or the refusal of an empty document. |
| Kubeadm.ParseDocuments | scripts/validate_kubeadm_config.py:242-278 | The loops over lines and chunks return the specification's map of documents or its error. |
| KubeadmLayout.BlockRoundTrip | scripts/validate_kubeadm_config.py:169-237 | A printed mapping or sequence, followed by anything that ends it, parses to its own tree and leaves exactly what followed. |
| KubeadmLayout.EntryHeadReads | scripts/validate_kubeadm_config.py:118-161 | The printed head of an entry is split into its key and a value that strips back to the scalar. |
| KubeadmSound.BlockSound | scripts/validate_kubeadm_config.py:169-237 | Whatever token list is accepted, the tree is printable and its keys and scalars, in order, are exactly those of the tokens consumed, read off their characters: the keys before the colons and the trimmed texts after colons and dashes, without their two ends where they are one quote. |
| KubeadmGrammar.ScalarReads | scripts/validate_kubeadm_config.py:118-130 | A scalar is read as a value exactly when, without the white space around it, it is the value's text between two equal quotes, the empty list as `[]`, or text without a leading quote and without an inline comment that stands for itself. |
| KubeadmGrammar.PairReads | scripts/validate_kubeadm_config.py:157-161 | A content is split into a key and a value exactly when it is that key, a colon, white space and that value on one line. |
| KubeadmGrammar.HeadReads | scripts/validate_kubeadm_config.py:200-220 | What follows the dash of an item is nothing, a pair, a malformed pair or plain text exactly as its characters say. |
| KubeadmGrammar.BlockExact | scripts/validate_kubeadm_config.py:169-237 | A token list is parsed whole to a tree exactly when the grammar spells the tree with these tokens: distinct keys, values on their line or as blocks two columns in, items with their first entry beside the dash and its block four columns in. |
| KubeadmStream.LineReadsExactly | scripts/validate_kubeadm_config.py:138-152 | A line that is neither blank nor a comment is read as a token exactly when it is an even number of spaces, the content, which holds no tab, no anchor, alias, tag or block scalar, and white space. |
| KubeadmStream.DocumentExact | scripts/validate_kubeadm_config.py:135-268 | Lines are read as a document exactly when, without the blank and comment lines, they spell tokens that spell that mapping at indentation zero. |
| KubeadmStream.PlainExact | scripts/validate_kubeadm_config.py:118-161 | A line of a key and an unquoted text is read as exactly that text if and only if the text is trimmed, not empty, not `[]`, has no leading quote, no inline comment, no tab or newline, no marker of advanced YAML. |
| KubeadmStream.StreamExact | scripts/validate_kubeadm_config.py:242-278 | A stream is read as a map exactly when its lines are segments with `---` lines between them and the map has each segment that says anything, as a document, under its own scalar kind, and no kind twice. |
| KubeadmText.TextRoundTrip | scripts/validate_kubeadm_config.py:135-237 | The canonical text of every document tree, split into lines as the reader splits it, parses to that tree. |
| KubeadmText.TextExact | scripts/validate_kubeadm_config.py:135-237 | Of all trees exactly the document trees are what their text, split into lines as the reader splits it, parses to. |
| KubeadmText.DashedKeyMisread | scripts/validate_kubeadm_config.py:118-237 | A key that starts with a dash is not read back at the top of a document, though the mapping is printable as a sequence item. |
| KubeadmText.ScalarExact | scripts/validate_kubeadm_config.py:118-153 | Under a plain key a scalar is read back exactly when it holds no tab, no line break and no anchor, alias or tag sign after white space. |
| KubeadmText.AcceptedTextReprints | scripts/validate_kubeadm_config.py:135-237 | Every accepted text carries exactly the keys and scalars of its tree, and printing the tree and parsing again gives the same tree. |
| KubeadmText.DocumentsRoundTrip | scripts/validate_kubeadm_config.py:242-278 | The text of a stream of documents of distinct kinds, printed with separators, is read back with every document under its kind. |
| KubeadmText.ChunkReadsBack | scripts/validate_kubeadm_config.py:252-268 | Joining the lines of a chunk and splitting the text again, as the reader does, changes nothing about what it parses to. |
| KubeadmText.AcceptedDocumentsKeyed | scripts/validate_kubeadm_config.py:264-278 | In any accepted stream every chunk is one document, no two share a kind, and the result maps exactly their kinds to them. |
| Transaction.Transaction.WriteBytes | scripts/ci/destructive_transaction_fixture.py:64-81 | However the system splits the writes, the record is replaced as a whole or the directory is left as it was. |
| Transaction.Transaction.RemoveTransientMarkers | scripts/ci/destructive_transaction_fixture.py:153-157 | The three transient entries are removed one after another as the specification says, up to the first that cannot be. |
| Transaction.Transaction.FinishCleanup | scripts/ci/destructive_transaction_fixture.py:179-215 | The cleanup changes the directory, and succeeds, exactly as specified. |
| Transaction.Transaction.Recover | scripts/ci/destructive_transaction_fixture.py:275-290 | Recovery changes the directory, and answers, exactly as specified, and raises the flag exactly when a cleanup starts; after it succeeded on a prepared journal the receipt holds the whole number of millionths nearest to the measured time, no residue and its trigger. |
| Transaction.Transaction.Prepare | scripts/ci/destructive_transaction_fixture.py:170-177 | Preparation succeeds exactly in a directory of the sentinel alone, adds journal, marker and ready note, and changes nothing otherwise. |
| TransactionFiles.RecoverSucceedsExactly | scripts/ci/destructive_transaction_fixture.py:179-215 | On a prepared journal recovery succeeds exactly when, in time, nothing but known entries was there; then sentinel, journal and receipt remain, the journal records the receipt's digest, and the receipt's time is a whole number of millionths no further than half of one from the measured time. |
| TransactionFiles.RecoverRemovesMarker | scripts/ci/destructive_transaction_fixture.py:180-184 | On a prepared journal without a receipt a regular marker is gone afterwards, also when recovery then fails. |
| TransactionFiles.RecoverSparesForeign | scripts/ci/destructive_transaction_fixture.py:153-290 | No entry that recovery does not own is created, changed or deleted, however it ends. |
| TransactionFiles.SecondRecoverIsNoOp | scripts/ci/destructive_transaction_fixture.py:217-290 | After a successful recovery another one succeeds and changes nothing. |
| TransactionFiles.RetrySucceedsExactly | scripts/ci/destructive_transaction_fixture.py:179-290 | After a failed recovery a later one in time succeeds exactly when only known entries are left. |
| TransactionFiles.FailedRecoverLeaves | scripts/ci/destructive_transaction_fixture.py:179-215 | A failed recovery leaves the journal prepared, or closed over exactly the number of entries that the sweep left, with a receipt of that number and the measured time; the number is not zero unless the sentinel was missing. |
| TransactionFiles.ClosedAcceptedExactly | scripts/ci/destructive_transaction_fixture.py:217-290 | Over a closed journal recovery changes nothing and succeeds exactly in a directory of sentinel, journal and a verified receipt without residue, in time, whose digest and trigger the journal records. |
| TransactionRuns.SafetyOverAllRuns | scripts/ci/destructive_transaction_fixture.py:64-290 | Over every interleaving of operations, signals, kills, restarts and foreign files: a marker implies a prepared journal; a closed journal implies no marker and the receipt with the recorded digest; a receipt is whole, in time, and verified exactly when its residue is zero; a process starts at most one cleanup; at most one receipt is ever published. |
| TransactionRuns.RecordsAreFinal | scripts/ci/destructive_transaction_fixture.py:64-290 | From any state a run can reach, a published receipt keeps its bytes, a journal never disappears, and a closed journal stays closed over the same receipt. |
| TransactionRuns.RecoverUninterrupted | scripts/ci/destructive_transaction_fixture.py:275-290 | Left alone, the stepwise recovery ends with the files and the verdict of the specified one at the time its clock shows at the census, however many rounds its writes take and however the time passes. |
| TransactionRuns.CensusReports | scripts/ci/destructive_transaction_fixture.py:179-199 | The receipt that a step of a run prepares reports the number of entries beside sentinel and journal, the trigger of its process and the clock's reading to the nearest millionth; a reading past the bound ends the run instead. |
| TransactionCrashes.CrashPointExact | scripts/ci/destructive_transaction_fixture.py:179-290 | After a kill at any point of any run, a recovery left alone in time ends well exactly when the directory holds a prepared journal, no receipt and only known entries, or a clean closed state; it then leaves a settled directory. |
| TransactionCrashes.StrandedForever | scripts/ci/destructive_transaction_fixture.py:64-290 | From a directory with a leftover or foreign entry, a receipt without its closed journal, a recorded residue, or a cleanup note without a prepared journal, no later events of any kind settle it, let a process end well or let recovery succeed. |
| TransactionCrashes.SalvageExact | scripts/ci/destructive_transaction_fixture.py:64-290 | Of the directories dead processes leave, exactly those that are not in one of these four states can be settled by some later events: a recovery, or a run that is signalled and told to continue. |
| TransactionCrashes.WindowStrands | scripts/ci/destructive_transaction_fixture.py:64-209 | In every run a kill inside a started write, or between the receipt and the closed journal, leaves a directory that stays stuck for ever. |
| TransactionSessions.CrashPointByStage | scripts/ci/destructive_transaction_fixture.py:64-290 | In a session of runs, recoveries and survivable kills and signals, with any answers of the system, a kill now is recovered from exactly outside the exposed stages, and strands for ever exactly in those windows. |
| TransactionSessions.LeftoverReached | scripts/ci/destructive_transaction_fixture.py:64-81 | A run killed one operation into the write of its marker is in such a state: a prepared journal beside a leftover temporary entry. |
| TransactionSessions.EarlyReceiptReached | scripts/ci/destructive_transaction_fixture.py:198-209 | A recovery killed after its receipt is in such a state: a prepared journal beside a published receipt. |
| TransactionSessions.EndsWellSettled | scripts/ci/destructive_transaction_fixture.py:179-290 | Over all runs, whenever a process ends well the directory at that step passes the closed-state check. |
| TransactionSignals.SignalledRunExact | scripts/ci/destructive_transaction_fixture.py:179-273 | Where time moves, a run signalled in its wait that has ended has ended well exactly when `cleanup.continue` appeared during its note or its hold and its cleanup was measured within the bound; then exactly the sentinel, the closed journal and the receipt of that signal are left, else the sentinel and the prepared journal. |
| TransactionSignals.AbandonedRunExact | scripts/ci/destructive_transaction_fixture.py:252-264 | Without `cleanup.continue` enough operations after the deadline end the run; its cleanup is measured at the deadline or later, and where time moves later, so it is denied. |
| TransactionSignals.ContinuedRunExact | scripts/ci/destructive_transaction_fixture.py:252-264 | With it, nineteen operations that are not cut short end the run, however the time and the writes are split, and it closes exactly when measured in time. |
| TransactionSignals.DeniedRunRecovers | scripts/ci/destructive_transaction_fixture.py:275-290 | A run denied this way is settled by any recovery that is left alone in time. |
| TransactionPairs.PairStepExact | scripts/ci/destructive_transaction_fixture.py:64-290 | With two live processes in one directory a step keeps the directory safe and the other process undisturbed exactly when the two stages do not clash. |
| TransactionPairs.ClashFreeSafe | scripts/ci/destructive_transaction_fixture.py:64-290 | Every interleaving of two processes without a clash keeps the safety of the directory and what both rely on. |
| TransactionPairs.TwoRecoveriesDisagree | scripts/ci/destructive_transaction_fixture.py:73-78 | Two recoveries of one prepared journal can both end well and leave the journal of one closed beside the receipt of the other, which no recovery accepts where the digests differ. |
| ReleaseState.ParseSimpleMapping | scripts/validate_release_state.py:294-330 | The line loop with its contexts returns the specification's mapping or its error. |
| ReleaseState.FindChild | scripts/validate_release_state.py:203-238 | The child search returns the value and the bounds of the section that the specification gives, or its error. |
| ReleaseState.MappingSection | scripts/validate_release_state.py:273-291 | The narrowing loop returns the section the specification gives for a path. |
| ReleaseState.CanonicalScalar | scripts/validate_release_state.py:241-270 | The scanner returns the scalar the specification gives for a path, or its error. |
| ReleaseOutline.PathsDistinct | scripts/validate_release_state.py:303-327 | In an accepted text no two lines have the same path. |
| ReleaseOutline.AcceptedOutline | scripts/validate_release_state.py:294-330 | Every accepted text is a tree in outline order, each line below its parent, and the mapping is exactly what the lines say. |
| ReleaseReaders.NarrowFinds | scripts/validate_release_state.py:203-291 | Narrowing along a path succeeds exactly when the parsed mapping holds the path as a mapping, and arrives at exactly its lines. |
| ReleaseReaders.ReadersAgree | scripts/validate_release_state.py:179-330 | On every text the mapping parser accepts, the scanner returns a value for a path exactly when the mapping sends the path to that scalar; all other paths are refused. |
| ReleaseEmission.SectionParses | scripts/validate_release_state.py:273-330 | The section the scanner opens for a path parses, at its own indentation, to exactly what the whole mapping says below that path. |
| ReleaseEmission.RenderValues | scripts/validate_release_state.py:521-531 | The re-emission loop returns the values text exactly when no line escapes the section. |
| ReleaseEmission.ReemissionKeepsMeaning | scripts/validate_release_state.py:521-531 | The dedented text without comments parses at indentation zero to the mapping of the original section. |
| ReleaseEmission.EmittedValuesAreTheSection | scripts/validate_release_state.py:273-531 | In an accepted text the section opened for a path parses to exactly what the mapping holds below the path, or is refused when that is nothing; no line escapes it, and the emitted text parses at indentation zero to the same. |
| ReleaseText.ContentExact | scripts/validate_release_state.py:179-200 | A content is read as an entry exactly when it is the key, a colon and, for a scalar, one space and the scalar. |
| ReleaseText.ParsedExactly | scripts/validate_release_state.py:294-330 | Lines are parsed to a mapping exactly when they spell the rows of a tree, in order: blank, a comment, or two spaces a level, the last key of the path, a colon and the value if any; the mapping, which is not empty, is what the rows say. |
| ReleaseText.ScannedExactly | scripts/validate_release_state.py:203-270 | On such a text the scanner returns a value for a path exactly when some line is the indentation of the path, its last key, a colon, a space and that value. |
| ReleaseText.EmittedExactly | scripts/validate_release_state.py:521-531 | The emitted text of a section is exactly its lines without their first spaces, with nothing for blank lines and comments, up to the last that is not empty and one newline. |
| Extents.DisjointExact | scripts/validate_reserved_storage_evidence.py:98-102 | The check of sorted neighbours accepts a list of non-empty ranges exactly when they are pairwise disjoint. |
| Extents.OccupiedBytes | scripts/validate_reserved_storage_evidence.py:98-102 | Ranges occupy as many bytes as their lengths sum to exactly when they are pairwise disjoint, and fewer otherwise. |
| Extents.Allocation | scripts/validate_reserved_storage_evidence.py:105-125 | The check of one volume accepts exactly the allocations that tile it without alias and returns their physical ranges. |
| Extents.AllocatesExact | scripts/validate_reserved_storage_evidence.py:105-125 | An observation is accepted for a volume exactly when its stretches, each starting where the one before ends, are the whole volume and share no physical byte. |
| Extents.LogicalMapInjective | scripts/validate_reserved_storage_evidence.py:105-125 | An accepted map is defined exactly on the volume's bytes and sends different bytes to different physical ones. |
| Extents.VolumeOccupiesItsSize | scripts/validate_reserved_storage_evidence.py:105-125 | An accepted volume occupies exactly as many physical bytes as it is large. |
| Extents.PhaseExact | scripts/validate_reserved_storage_evidence.py:209-246 | Two accepted volumes pass the check of a phase exactly when they share no byte, which is when they occupy the sum of their sizes. |
| Ledger.CheckLedger | scripts/validate_reserved_storage_evidence.py:142-183 | The checks on pool, counts and keys, and the loop over reservations with its four sums, accept exactly the ledgers that satisfy the specification. |
| Ledger.AcceptedExact | scripts/validate_reserved_storage_evidence.py:130-183 | A ledger is accepted exactly on terms told entry by entry: the same two to sixty-four keys on both sides, no inode reserved twice, and before and after, what is granted fits beside what is available and what is lacking, with the host's reserve, into it. |
| Ledger.PoolKeepsHostReserve | scripts/validate_reserved_storage_evidence.py:158-182 | After an accepted ledger no sequence of allocations within the reservations takes the pool below the host's reserve. |
| Ledger.FundedForever | scripts/validate_reserved_storage_evidence.py:180-182 | Every such allocation keeps what is still outstanding, plus the host's reserve, within what is available. |
| Ledger.FullAllocationReachable | scripts/validate_reserved_storage_evidence.py:158-182 | Whatever was allocated so far, it can be continued until every reservation is full, with the host's reserve left. |
| IngressRules.ExpectedSequence | scripts/validate_ingress_guard.py:165-173 | The two loops build the expected rules of the interfaces, in order. |
| IngressRules.ExpectedMembers | scripts/validate_ingress_guard.py:165-173 | A rule is expected exactly when its interface is declared and it accepts port 22 or drops one of the four denied ports. |
| IngressRules.ExpectedInjective | scripts/validate_ingress_guard.py:165-173 | The expected rules determine the interfaces and their order. |
| IngressRules.ClassifySequence | scripts/validate_ingress_guard.py:244-276 | The three loops with their set of seen rules return the specified errors in order. |
| IngressRules.ClassifyExact | scripts/validate_ingress_guard.py:244-276 | For distinct interfaces there is no error exactly for the expected rules, and the order error alone exactly for a permutation of them that is not the same. |
| IngressRules.ClassifiedExact | scripts/validate_ingress_guard.py:244-276 | Each error is reported exactly for its own cause: a dropped port 22, an accepted denied port, another port, an undeclared interface, a repeated rule, a missing one, or only the order. |
| IngressRules.PermutationsDecideAlike | scripts/validate_ingress_guard.py:165-173 | First match over any permutation of the expected rules drops exactly the denied ports on declared interfaces and accepts everything else. |
| AdminIngress.ParseContractText | scripts/validate_admin_ingress_contract.py:104-166 | The line loop returns the specified interfaces, or all diagnostics with their line numbers in order. |
| AdminIngress.ReadLineExact | scripts/validate_admin_ingress_contract.py:117-138 | A line assigns a value to a key exactly when it is that key, one equals sign and a non-empty value without white space or control characters. |
| AdminIngress.ReadLineIs | scripts/validate_admin_ingress_contract.py:117-138 | Every outcome of reading a line, each refusal included, is told exactly from the characters of the line. |
| AdminIngress.AllowedExact | scripts/validate_admin_ingress_contract.py:88-101 | An interface is allowed exactly when it has two to fifteen characters of the alphabet, starts with a small letter, is not the loopback and starts with none of the listed class prefixes. |
| AdminIngress.AcceptedExact | scripts/validate_admin_ingress_contract.py:88-166 | A text is accepted for a list of interfaces exactly when every line is inert, the review line or an allowed declaration, the review stands once and says yes, and the one to sixteen declared interfaces are those, distinct. |
| AdminIngress.AcceptedInterfaces | scripts/validate_admin_ingress_contract.py:88-166 | Accepted interfaces are one to sixteen, distinct and each of an allowed shape and class. |
| AdminIngress.WrittenContractReads | scripts/validate_admin_ingress_contract.py:104-166 | Every admissible list of interfaces, written as a contract, reads back as that list. |
| IngressGuard.ScanRuleset | scripts/validate_ingress_guard.py:348-382 | The object loop collects the owned bodies and the decoy errors as specified, or stops at a malformed object. |
| IngressGuard.ReadRules | scripts/validate_ingress_guard.py:424-447 | The rule loop returns the specified errors and parsed rules. |
| IngressGuard.CheckModel | scripts/validate_ingress_guard.py:337-449 | The ruleset check returns exactly the specified errors on every decoded document. |
| IngressListing.ChainErrorsListed | scripts/validate_ingress_guard.py:399-422 | Each error of the chain is reported exactly for its own member. |
| IngressListing.TableErrors | scripts/validate_ingress_guard.py:374-398 | A missing, repeated, misshapen or foreign table and a missing or second chain end the check with their own errors. |
| IngressGuard.CheckAbsence | scripts/validate_ingress_guard.py:452-476 | The absence check returns exactly the specified errors, each once. |
| IngressGuard.DepthWithinLimit | scripts/validate_ingress_guard.py:541-553 | Draining the stack answers whether the recursively defined depth of the document is at most 64. |
| IngressTransaction.ParseRuleExact | scripts/validate_ingress_guard.py:176-241 | An expression reads as a rule exactly when it is that rule's own four-part expression, for some counter values in range and an interface without wildcards. |
| IngressTransaction.AcceptExact | scripts/validate_ingress_guard.py:337-449 | A ruleset is accepted for interfaces exactly when its envelope opens, all objects are well formed, no decoy stands beside the guard, and the owned objects are one good table, one good chain and rules that state the expected sequence under distinct handles. |
| IngressListing.AcceptedListing | scripts/validate_ingress_guard.py:279-449 | A document is accepted for interfaces exactly when it lists a metainfo and whole objects without decoys, and the objects bound to the guard's table are its table, its chain and the expected rules in order, each written member by member, under distinct handles. |
| IngressTransaction.AcceptedForOne | scripts/validate_ingress_guard.py:337-449 | No ruleset is accepted for two different lists of interfaces. |
| IngressTransaction.AcceptedDecides | scripts/validate_ingress_guard.py:337-449 | The rules of an accepted ruleset, first match first, drop exactly the denied ports on the declared interfaces. |
| IngressTransaction.AbsenceExact | scripts/validate_ingress_guard.py:452-476 | Absence is confirmed exactly when the envelope opens and no well-formed object carries the owned identity. |
| IngressListing.AbsentListing | scripts/validate_ingress_guard.py:279-476 | Absence is confirmed exactly for a document that lists a metainfo and whole objects of which none is the guard's table, bound to it, or a chain of the guard's name. |
| IngressTransaction.DocumentOfEnvelope | scripts/validate_ingress_guard.py:279-308 | Every document whose envelope opens is the listing of a valid metainfo and the objects it opens to. |
| IngressTransaction.EnvelopeOfDocument | scripts/validate_ingress_guard.py:279-308 | Every listing of a valid metainfo and other objects opens to those objects. |
| IngressTransaction.InstallAccepted | scripts/validate_ingress_guard.py:337-476 | For the interfaces of any accepted contract, the guard's own objects placed anywhere among the objects of a ruleset without a trace of it give a ruleset accepted for those interfaces. |
| IngressTransaction.RemovalRestoresAbsence | scripts/validate_ingress_guard.py:337-476 | Deleting the owned objects of an accepted ruleset restores absence exactly when no table of another name carries a member naming the owned table. |
| IngressTransaction.RollbackCanMissAbsence | scripts/validate_ingress_guard.py:359-362 | For every accepted contract there is an accepted ruleset from which deleting the guard does not restore absence. |
| IngressTransaction.InstallThenRemove | scripts/validate_ingress_guard.py:337-476 | A guard installed over a ruleset without a trace never stands beside such a table, and the listing after its removal passes the absence check. |
| IngressTransaction.OrderOfOthersIrrelevant | scripts/validate_ingress_guard.py:348-382 | Reordering and moving the objects that are not owned never changes the verdict. |
| PiNetwork.OverlapsExact | scripts/validate_pi_network.py:347-357 | Comparing the ends of two address blocks decides whether they share an address. |
| PiNetwork.SharedNested | scripts/validate_pi_network.py:223-234 | Blocks that share an address are nested, the longer prefix in the shorter. |
| PiNetwork.ValidateRules | scripts/validate_pi_network.py:113-138 | The policy rules are accepted exactly when they are readable and, normalised, a permutation of the three default ones. |
| PiNetwork.ParseAddresses | scripts/validate_pi_network.py:171-207 | The nested loops return the specified networks and the one binding of the advertise address, or the specified refusal. |
| PiNetwork.ReadLiveNetworks | scripts/validate_pi_network.py:263-316 | The route loop returns the specified live networks, or the specified refusal. |
| PiNetwork.Gate | scripts/validate_pi_network.py:321-366 | The gate returns the refusal of the host state, or all overlaps found, in order. |
| PiNetwork.FailuresExact | scripts/validate_pi_network.py:347-357 | No failure is found exactly when the advertise address is private, the two ranges share no address and neither shares one with a live network. |
| PiNetwork.FailureListed | scripts/validate_pi_network.py:347-357 | Each failure is listed exactly for its cause, and an overlap under the range and the network that overlap. |
| PiNetwork.PassedSeparates | scripts/validate_pi_network.py:263-366 | After a passed gate no address is in both ranges, and none of either is the advertise address, a default gateway, or in a bound network or any route but a default one; and a default gateway is not the advertise address. |
| PiNetwork.AnswersInOrder | scripts/validate_pi_network.py:113-138 | Under accepted policy rules a lookup is a longest match in the local table, else in the main table, else in the default table. |
| PiNetwork.PassedLookups | scripts/validate_pi_network.py:263-366 | After a passed gate a lookup of an address of either range is answered by exactly the default route of the main table, of which there is at most one. |
| PiNetworkHosts.RulesExact | scripts/validate_pi_network.py:104-138 | The policy rules are accepted exactly when there are three, one for each of the tables local, main and default, by number or by name, at priorities 0, 32766 and 32767, for every source and without flags. |
| PiNetworkHosts.LiveExact | scripts/validate_pi_network.py:171-316 | The live networks are read exactly from a host with such rules, readable addresses on known links with the advertise address once among them, and routes that are local or broadcast in the local table or unicast on a known link that is no tunnel in the main one, at most one of them a default route: on the interface and in the block of the advertise address, through another address, without flags or a foreign source. They are the claimed blocks, in order. |
| PiNetworkHosts.PassesExact | scripts/validate_pi_network.py:263-366 | The gate is passed exactly on such a host with a private advertise address, by ranges that share no address with each other or with a claimed block. |
| Encodings.DecodeEncode | scripts/validate_kubeconfig_snapshot.py:97-104 | Base64 decoding inverts encoding on all bytes. |
| Encodings.EncodeDecode | scripts/validate_kubeconfig_snapshot.py:97-104 | Encoding inverts decoding exactly on the texts without excess padding whose left-over bits are zero. |
| Encodings.EncodeLetters | scripts/validate_kubeconfig_snapshot.py:97-104 | Each letter of an encoding is, by its place in the alphabet of RFC 4648, the digit to the base 64 that its place in its three bytes has, and padding past the last byte. |
| Encodings.CanonicalBase64Exact | scripts/validate_kubeconfig_snapshot.py:93-105 | The accepted texts are exactly the encodings of 1 to 131072 bytes, each read as the bytes it encodes. |
| Encodings.RefusedAsNotCanonical | scripts/validate_kubeconfig_snapshot.py:101-105 | Of the decodable texts of acceptable size exactly those with excess padding or left-over bits are refused. |
| Encodings.ExcessPaddingRefused | scripts/validate_kubeconfig_snapshot.py:97-104 | There is a text with padding after a full group that decodes and is refused. |
| Encodings.LeftOverBitsRefused | scripts/validate_kubeconfig_snapshot.py:97-104 | There is a text with left-over bits that decodes and is refused. |
| Encodings.ConcatWrap | scripts/validate_kubeconfig_snapshot.py:130-146 | Joining the wrapped lines of a body gives the body. |
| Encodings.WrapWidth | scripts/validate_kubeconfig_snapshot.py:142-146 | Every wrapped line but the last has 64 characters, and none is empty. |
| Encodings.RenderSpelled | scripts/validate_kubeconfig_snapshot.py:141-154 | A rendering is the opening line with the label, the wrapped body and the closing line with the label, each with a newline. |
| Encodings.PemExact | scripts/validate_kubeconfig_snapshot.py:114-157 | The accepted texts are exactly the renderings, under an allowed label, of one body of enough bytes that starts with the DER sequence tag. |
| Encodings.RenderInjective | scripts/validate_kubeconfig_snapshot.py:147-154 | A rendering determines its label and its body. |
| Encodings.DerBoundUnreachable | scripts/validate_kubeconfig_snapshot.py:135-140 | A body decoded from a text within the outer limit is always below the inner limit. |
| Encodings.CanonicalPemExact | scripts/validate_kubeconfig_snapshot.py:108-158 | A field is accepted exactly when it is the Base64 of the rendering of one body, and its label and body are then unique; the inner upper bound plays no part. |
| ReleaseEpoch.ParseExact | scripts/ci/platform_release_epoch.py:64-70 | A tag reads as a version exactly when it is that version's rendering and has at most 64 characters. |
| ReleaseEpoch.ParseInjective | scripts/ci/platform_release_epoch.py:64-70 | No two tags read as the same version. |
| ReleaseEpoch.NextTagReads | scripts/ci/platform_release_epoch.py:73-75 | The next tag of an accepted tag reads as the next patch version exactly when it has at most 64 characters. |
| ReleaseEpoch.SomeTagIsLast | scripts/ci/platform_release_epoch.py:64-75 | There is an accepted tag whose next tag is not accepted. |
| ReleaseEpoch.PinnedTagsSpelled | scripts/ci/platform_release_epoch.py:15-24 | The modelled tags have exactly the pinned spellings. |
| ReleaseEpoch.PinnedTags | scripts/ci/platform_release_epoch.py:17-82 | The pinned and derived tags read as consecutive patches of 0.1 at the epoch boundaries. |
| ReleaseEpoch.HistoricalExact | scripts/ci/platform_release_epoch.py:85-91 | The stepping search finds the k-th historical release exactly at the k-th tag of the fourth epoch, and none elsewhere. |
| ReleaseEpoch.IdentityExact | scripts/ci/platform_release_epoch.py:131-151 | The identity of a tag has exactly the name, epoch and markers that its version falls under. |
| ReleaseEpoch.PublicationExact | scripts/ci/platform_release_epoch.py:154-179 | A publication is granted exactly for the patch after its base, under the name of its version and the pinned object number, on well-formed sources, and on the sources fixed for v0.1.69, v0.1.78 and v0.1.81 to v0.1.83, which no later release may reuse. |
| ReleaseEpoch.ChainVersions | scripts/ci/platform_release_epoch.py:154-179 | Along a chain of accepted publications versions rise by exactly one patch a step. |
| ReleaseEpoch.ChainEpochs | scripts/ci/platform_release_epoch.py:131-179 | Along a chain epochs never fall and no tag occurs twice. |
| ReleaseEpoch.OldNameEdge | scripts/ci/platform_release_epoch.py:162-164 | The old name is used exactly on the edge to the terminal release of the first epoch, which stands on the checkpoint and its source. |
| ReleaseEpoch.OldNameOnce | scripts/ci/platform_release_epoch.py:162-164 | A chain uses the old name at most once. |
| ReleaseEpoch.PinnedExact | scripts/ci/platform_release_epoch.py:154-179 | In every chain a release at a pinned tag is forced to its pinned source exactly when it is a base at v0.1.68, v0.1.77, v0.1.80, v0.1.81 or v0.1.82, or was published at v0.1.81 to v0.1.83; anywhere else every well-formed source could stand in its place. |
| ReleaseEpoch.HistoricalSources | scripts/ci/platform_release_epoch.py:167-175 | In the fourth epoch each historical source is published exactly at its own tag, on its own parent. |
| ReleaseEpoch.UnforcedWitness | scripts/ci/platform_release_epoch.py:154-179 | Each of the unforced places exists: a chain with a foreign source at that pinned tag. |
| RuntimeInventory.ExactMap | scripts/validate_runtime_inventory_evidence.py:45-56 | The map is built exactly when every expected identity is listed once and every item has a UID, and it sends each identity to its item. |
| RuntimeInventory.DynamicMap | scripts/validate_runtime_inventory_evidence.py:59-75 | The map is built exactly when all items are named and no identity and no UID repeats. |
| RuntimeInventory.LinkReplicaSets | scripts/validate_runtime_inventory_evidence.py:325-386 | The ReplicaSet loop returns the specified chain, or refuses as specified. |
| RuntimeInventory.OneActiveReplicaSet | scripts/validate_runtime_inventory_evidence.py:325-386 | An accepted chain gives every Deployment exactly one active ReplicaSet, which mirrors its replicas and template, and none to anything else. |
| RuntimeInventory.ResolveParent | scripts/validate_runtime_inventory_evidence.py:430-495 | The owner checks of a Pod return its specified parent and that parent's images. |
| RuntimeInventory.CheckPods | scripts/validate_runtime_inventory_evidence.py:388-516 | The Pod loop and the final comparisons accept exactly the specified censuses. |
| RuntimeInventory.PodsPerParent | scripts/validate_runtime_inventory_evidence.py:399-515 | In an accepted census every Pod stands in a namespace of the release, has a name and a UID, is not going away, runs, is ready and restricted; it has one parent and its images, UIDs are distinct, and every Deployment, DaemonSet and the node have exactly the Pods they call for. |
| RuntimeInventory.PodsConserved | scripts/validate_runtime_inventory_evidence.py:399-515 | The number of Pods is the sum of all Deployment replicas, all DaemonSet desired counts and the static Pods. |
| RuntimeInventory.CheckInventory | scripts/validate_runtime_inventory_evidence.py:262-516 | The checks in sequence accept exactly the inventories that satisfy the specification. |
| RuntimeInventory.AcceptedInventory | scripts/validate_runtime_inventory_evidence.py:325-515 | In every accepted inventory all Pods are serving so; it conserves Pods, gives each one parent with that parent's images, and gives every Deployment its replicas. |
| RuntimeInventory.AcceptedOnNode | scripts/validate_runtime_inventory_evidence.py:392-398 | With the four static Pods of a node, exactly four Pods stand outside the controllers. |
| RuntimeCensus.ChainExact | scripts/validate_runtime_inventory_evidence.py:325-386 | The ReplicaSets are linked exactly when each belongs to a Deployment of the list by its one controlling owner and either rests or copies it, and every Deployment has exactly one that runs. |
| RuntimeCensus.GoodExact | scripts/validate_runtime_inventory_evidence.py:399-505 | A Pod passes its checks and is counted for a place exactly when it is named, serving, and stands there by its owners with the images of that place. |
| RuntimeCensus.AcceptedExactly | scripts/validate_runtime_inventory_evidence.py:262-516 | An inventory is accepted exactly when the expected controllers are listed once each, the ReplicaSets fit them, and the Pods, with distinct UIDs, fit places such that every static Pod has one mirror and every controller as many Pods as it calls for. |
| RuntimeCensus.DeploymentUidsDistinct | scripts/validate_runtime_inventory_evidence.py:322-386 | Accepted evidence has no UID on two Deployments, though nothing compares them. |
| TestRunner.GroupsExact | scripts/ci/run_python_tests.py:40-47 | For every positive number of workers the strided groups hold every entry exactly as often as the list. |
| TestRunner.GroupSizes | scripts/ci/run_python_tests.py:43 | No group is empty, and sizes fall by at most one from the first group to the last. |
| TestRunner.PartitionSucceeds | scripts/ci/run_python_tests.py:40-47 | For distinct tests and one to four workers the partition's own check never fires. |
| TestRunner.Collect | scripts/ci/run_python_tests.py:192-204 | The worker loop sums every count over the valid results and reports a failure exactly when some worker did not succeed. |
| TestRunner.SucceededExact | scripts/ci/run_python_tests.py:50-61 | A worker counts as successful exactly when it exited with zero and a record of exactly the eight entries, its own tests, all of them run, none failed, broken or passed against expectation, and no more excused than ran. |
| TestRunner.Run | scripts/ci/run_python_tests.py:172-215 | A pass is reported exactly when the tests are distinct and not empty, the worker count is within limits, every worker succeeded and every one was stopped; then no test failed, broke or passed against expectation, and the counts add up to the tests. |
| TestRunner.CensusAddsUp | scripts/ci/run_python_tests.py:211-212 | When every worker succeeded the totals count every discovered test, so the last comparison never fails alone. |
| TestRunner.PassExecutesOnce | scripts/ci/run_python_tests.py:50-61 | When every worker succeeded each discovered test was executed exactly once across the workers, and nothing else was. |

## Left out

- Race-checked file reading, exclusive opening, custody metadata, subprocesses, Git, GitHub, systemd and Docker calls: operating-system behaviour. Their results are parameters.
- JSON decoding, command lines, diagnostic wording and, except in the interface contract, line numbers: a refusal is modelled by its token or its kind.
- SHA-256: an arbitrary function parameter of the transaction; no injectivity is assumed.
- Texts are given as their lines where the source uses `splitlines`; the line breaks themselves are modelled for the texts of `KubeadmText` only.
- Digits are the ASCII ones; Python's `isdigit` and `\d` on other scripts, and the lower-casing of letters outside ASCII, are not modelled. Patterns are modelled as the character conditions they denote.
- Decoded JSON keeps integers and floats apart; Python's equality of `1`, `1.0` and `True` plays no part in the fields that are compared.
- Transaction.Transaction.WriteBytes: the file between two partial writes is one opaque partial content; which prefix has been written is not modelled.
- TransactionFiles.RecoverSucceedsExactly: elapsed seconds are real numbers, rounded to six places with ties to the even one; binary floating point is not modelled.
- TransactionPairs.ClashFreeSafe: signals, kills and restarts between the steps of the two processes are left out; a kill and a signal put a process where it relies on nothing, a restart where it has looked at nothing yet.
- TransactionSessions.CrashPointByStage: a session excludes foreign entries, signals before the cleanup at an exposed stage, and a `cleanup.continue` after the sweep; the statements on all runs are `CrashPointExact` and `WindowStrands`.
- TransactionRuns.SafetyOverAllRuns: one process lives at a time; two at once are the subject of `TransactionPairs`. Power loss that reorders writes past a completed `fsync` is not modelled.
- Extents.Allocation: the shapes of the evidence objects, their identity fields and the number parsing are settled by one branch each and are inputs here.
- Ledger.CheckLedger: the file-system UUID pattern, the profile, freshness and digests, and the closed constants of mounts, recovery and prevention evidence are left out; each is one comparison.
- PiNetwork.Gate: reading the three addresses out of the kubeadm file, link parsing, and the tunnel tests by kind and name are inputs: each interface carries whether it is a tunnel, and the advertise address whether it is a private unicast one.
- PiNetwork.ParseAddresses: an address entry is given as parsed or malformed; the textual forms of addresses and prefix lengths are not modelled.
- ReleaseEpoch.PinnedTags: asset names, schema and subject strings, workflow paths and the validation of signed evidence are left out; they are closed constants per epoch.
- RuntimeInventory.CheckPods: the port and privilege checks on a Pod are one boolean of its evidence, and stability of a Deployment or DaemonSet is given with its count.
- RuntimeInventory.CheckInventory: the namespace, node, Service and webhook checks and the choice between the two network providers are left out; the provider is a parameter.
- TestRunner.Run: starting, supervising and timing workers is left out; what became of each worker is a parameter.
- IngressGuard.CheckModel: rendering the loadable policy and the checks of units, manifests and example files are left out.
- Encodings.Decode: this is the strict decoder of recent Python, which passes over any number of padding characters after a full group; older versions passed over at most two, which changes no acceptance. Its error texts are not modelled.
- The pattern sweeps, entropy measures, RBAC and Flux constant tables, release recovery and predecessor validation are left out: large constant tables, or modules that are not part of this model.
