# AxLicense verification model

A Dafny model of three parts of AxLicense, with proofs about them:

- **The credential codec and verifier.** Credentials are deterministic CBOR
  (RFC 8949) inside a signed CBOR envelope. A streaming encoder, a decoder that
  looks fields up by label, and a verifier that decodes, re-encodes and compares
  at two nested levels before it checks the signature and the meaning.
- **First establishment of the device identity.** Any number of runs, in any
  number of processes, read the state, take a machine-wide lock, create a key
  and commit a record. Runs may crash at any call.
- **Replacement of the state file.** Temporary file, flush, atomic rename,
  with readers in between and a power loss at any step.

`dafny verify dfyconfig.toml` checks everything.

## How the model is built

| files | part |
|---|---|
| `Wrappers`, `Bytes` | result types; byte strings, their order and their values |
| `Cbor`, `Tolerance` | wire format: bottom-up encoder, tolerant parser, core deterministic form |
| `WireFormat` | the same bytes written out, octet by octet |
| `Utf8` | the hand-written text validator |
| `Credential` | entities, their data model, the sort of entitlements |
| `Writer`, `Encoder` | the streaming encoder and the encoders that drive it |
| `Decoder`, `Meaning` | the structural bounds, the decoding context and the decoders, and what they accept |
| `Codec`, `InputOrder`, `Canonical` | round trips, item counts, input order, the canonical form |
| `Limits`, `Samples` | the bound on entitlements, and credentials that reach it |
| `LowS`, `Verifier`, `Acceptance` | signature range, verification, what a valid result means |
| `Verdict`, `SortVerdict` | the three verdicts spelled out, and when one depends on the library sort |
| `RuntimeLicense` | decisions over a verified credential |
| `Identity`, `Conduct`, `IdentityManager` | one run of `ensure_identity`: automaton, laws on its calls and results, code |
| `Establishment`, `Agreement` | the system of all runs, and its safety |
| `Outages` | the same across power losses |
| `MutationLock`, `CngProvider` | the lock and the key lifecycle that the system relies on |
| `MachineState`, `StateFormat`, `LawfulPlatform` | the codec of the state file, its format spelled out, and its platform |
| `FileSystem`, `CrashSafety`, `Durability` | files, writers, readers and power losses, and their safety |
| `StoreSpec`, `StateStore` | the store, step by step, and its links to both machines |

Code that changes things step by step is a method or a class, proved against a
function; the theorems are about those functions.

- `Writers.Writer` keeps a buffer of fixed capacity and a stack of open
  containers. The head of a container is inserted when it is closed. The ghost
  field `open` holds the items of every open container; the class invariant says
  that the buffer is their encoding, or that they do not fit.
- `Decoder` offers what the decoding library offers its callers: lookup by label
  in any order, heads of any width, indefinite lengths, dropped tags, an error
  for repeated labels. The canonical form is therefore the work of the gates.
- Sorting is any sort. `Credentials.SortInPlace` stands for the library sort,
  and its callers use its contract only. `Verifier.Verified` is parameterised by
  the outcome of the sort.
- `Identity.Next` is an automaton over calls and replies. The code is proved to
  make its calls, in its order, for all replies. `Establishment` runs any number
  of these automata against one file, one lock and one key store per provider;
  the environment chooses the replies within `Establishment.Possible`.
- The functions that the code is proved against are themselves tied to statements
  with literal octets, labels, names, codes and limits: `WireFormat` and `Meaning`
  for the codec, `Verdict` for the verifier, `Conduct` for the identity manager,
  `StateFormat` for the state file.
- `FileSystem` gives each file cached and durable contents, and keeps the list of
  what the state name stood for together with the position up to which that list
  is durable. A power loss cuts the list back to any point from there on and may
  leave anything in files that were not flushed.
- The store takes steps of the `FileSystem` machine only (`StateStore`), and
  `StoreSpec.WriteIsPossible` joins it to the other one: it behaves like the
  register of `Establishment`, which is absent or holds one complete record. The
  lock and the providers are joined to `Establishment` in the same way.
- `Outages` strings runs of `Establishment` together: an epoch ends in a power
  loss, which may take a commit back that is not durable yet. What it may leave
  is what a power loss leaves of the state file (`Outages.LossIsFollowed`,
  `Outages.FollowersAreLosses`).

## Findings

- A write may take effect and still report a failure, if the commit observer
  throws after the replace (`client/src/windows/machine_state_repository.cpp:252-259`).
  `ensure_identity` then removes the key of the record it has committed
  (`client/src/core/identity.cpp:95-98`). The key properties hold for a store
  without an observer, which is what production builds
  (`client/app/main.cpp:112`), and for no other:
  `StoreSpec.ObserverHidesCommit`, `Agreement.ObserverLosesKey`,
  `Agreement.KeysSafeExactlyWithoutObserver`.
- The bound of 512 items admits 71 entitlements at most, in any byte string that
  decodes. The separate bound of 128 never decides: `Limits.AtMost71Entitlements`.
  There are semantically valid credentials with 72 to 128 entitlements that are
  encoded but can never be read: `Samples.ValidCredentialsDecodeUpTo71`.
- The verdict on an artifact can depend on what the library sort does with equal
  identifiers: one of an unsupported schema in which two different entitlements
  share an identifier is unsupported or invalid, as the sort decides, because the
  schema is judged before the identifiers
  (`client/src/wire/credential.cpp:176-191`). There is no other case:
  `SortVerdict.VerdictDependsOnSortExactly`, `SortVerdict.SomeVerdictDependsOnSort`.
- A reader may see a new state that a power loss then takes back, exactly as long
  as no write from that rename on has returned: `Durability.UndoneExactlyBeforeReturn`,
  `Durability.ReadThenLost`. So a run may return an identity that another run
  contradicts after the power loss, exactly as long as the run that committed it
  has made no call since: `Outages.SomeOutageEndsAgreement`,
  `Outages.AgreementEndsExactlyBeforeReturn`. What the committing run itself
  returned is never contradicted: `Outages.CommitterIsNeverContradicted`.
- When writing or flushing the temporary file fails, its deletion is attempted
  while the file is still open without sharing, and the error code is read after
  that (`client/src/windows/machine_state_repository.cpp:229-239`). The file stays,
  and missing privilege is reported as another failure:
  `StoreSpec.DenialIsReportedExactly`, `StoreSpec.DeniedFlush`. The state name is
  not affected.

## Model

| member | source | states |
|---|---|---|
| Bytes.LexIsNumeric | client/src/wire/credential.cpp:76-80 | lexicographic order of two equally long byte strings is the order of the big-endian numbers they denote |
| Bytes.ValueOfBigEndian | reference/tools/a0_reference.py:35-41 | a number written in a fixed number of big-endian bytes reads back, provided it fits |
| Bytes.LexLessByFirstDifference | client/src/wire/credential.cpp:76-80 | one byte string comes before another exactly if it ends, or has the smaller octet, where they first differ |
| Cbor.ParseOfHead | reference/tools/a0_reference.py:28-42 | the shortest head of any 64-bit argument is read back with its type, its argument and everything after it |
| Cbor.HeadIsShortest | reference/tools/a0_reference.py:28-42 | whatever head the tolerant parser accepts, the reference head for the same type and argument is no longer (section 4.1 of RFC 8949) |
| Cbor.ParseOfEnc | reference/tools/a0_reference.py:45-69 | the tolerant parser inverts the bottom-up encoder on every plain item, in front of any continuation |
| Cbor.EncIsPrefixFree | reference/tools/a0_reference.py:45-69 | encodings are injective and none is a proper prefix of another |
| Cbor.ParseSequenceOfEnc | reference/tools/a0_reference.py:45-69 | one encoded item is read as a sequence of exactly that item |
| Tolerance.WideHeadsAreRead | client/src/wire/qcbor_codec.cpp:34-48 | integers and strings are read with a head of any width |
| Tolerance.TagsAreDropped | client/src/wire/qcbor_codec.cpp:34-48 | a tag is dropped, whatever its number and the width of its head |
| Tolerance.IndefiniteLengthsAreRead | client/src/wire/qcbor_codec.cpp:185-196 | arrays and maps of indefinite length are read, and marked as such |
| Utf8.ValidUtf8 | client/src/wire/qcbor_codec.cpp:56-95 | the validator answers true exactly for the concatenations of RFC 3629 encodings of Unicode scalar values: no overlong form, surrogate, truncation or value above 0x10FFFF |
| Utf8.Utf8IsTheGrammar | client/src/wire/qcbor_codec.cpp:56-95 | a text is valid exactly if it is in the octet grammar of section 4 of RFC 3629 |
| Utf8.EncodeAllIsInjective | client/src/wire/qcbor_codec.cpp:56-95 | the sequence of scalar values behind a valid text is unique |
| Utf8.EncodeIsPrefixFree | client/src/wire/qcbor_codec.cpp:56-95 | a byte string starts with the encoding of at most one scalar value |
| Utf8.StartsIsEncode | client/src/wire/qcbor_codec.cpp:63-92 | what the bit tests accept at one position is precisely the encoding of one scalar value |
| Utf8.DropOne | client/src/wire/qcbor_codec.cpp:58-93 | cutting one accepted encoding off the front changes nothing about validity, which is what makes the single pass exact |
| Credentials.SortIsUnique | client/src/wire/qcbor_codec.cpp:312-319 | with distinct identifiers every sort, stable or not, gives the same sequence |
| Credentials.SortIsUniqueWhenIdsDecide | client/src/wire/qcbor_codec.cpp:317-319 | even where identifiers repeat, every sort gives the same sequence if each identifier stands for one entitlement only |
| Credentials.SortedIsASort | reference/tools/a0_reference.py:95-96 | the reference sort is a permutation in order |
| Credentials.PermutationKeepsDistinct | client/src/wire/qcbor_codec.cpp:312-319 | identifiers that are pairwise distinct stay so in every permutation |
| Credentials.PayloadIgnoresInputOrder | reference/tools/a0_reference.py:95-110 | the reference payload bytes are the same for every permutation of entitlements with distinct identifiers |
| Credentials.SortInPlace | client/src/wire/qcbor_codec.cpp:317-319 | the array ends as a permutation of itself in which no entitlement is followed by one with a smaller identifier |
| Writers.FlatOfClosed | reference/tools/a0_reference.py:62-69 | putting the head in front of a finished container gives the bytes the bottom-up encoder gives that container |
| Writers.Writer.constructor | client/src/wire/qcbor_codec.cpp:123-128 | an encoder starts with no open container and an empty buffer, within its capacity |
| Writers.Writer.AddUInt64 | client/src/wire/qcbor_codec.cpp:298-299 | the innermost container gains one unsigned integer, or the overflow is recorded; nothing is ever truncated |
| Writers.Writer.AddText | client/src/wire/qcbor_codec.cpp:456-459 | the innermost container gains one text string, or the overflow is recorded |
| Writers.Writer.AddBytes | client/src/wire/qcbor_codec.cpp:460-460 | the innermost container gains one byte string, or the overflow is recorded |
| Writers.Writer.AddUInt64ToMapN | client/src/wire/qcbor_codec.cpp:200-200 | the innermost map gains one entry, counted once for label and value |
| Writers.Writer.AddInt64ToMapN | client/src/wire/qcbor_codec.cpp:201-206 | the innermost map gains one entry, and a negative value the negative-integer form |
| Writers.Writer.AddTextToMapN | client/src/wire/qcbor_codec.cpp:301-302 | the innermost map gains one text entry |
| Writers.Writer.AddBytesToMapN | client/src/wire/qcbor_codec.cpp:404-405 | the innermost map gains one byte-string entry |
| Writers.Writer.Open | client/src/wire/qcbor_codec.cpp:211-211 | a new innermost container starts empty and the others are untouched |
| Writers.Writer.OpenInMapN | client/src/wire/qcbor_codec.cpp:199-199 | a container is opened as the value of a new map entry |
| Writers.Writer.Close | client/src/wire/qcbor_codec.cpp:207-223 | the count fixed at close is the number of entries added since the matching open, and the closed container becomes one item of the container around it |
| Writers.Writer.Finish | client/src/wire/qcbor_codec.cpp:130-135 | after balanced calls the output is the bottom-up encoding of the one item written if that fits the capacity, and a failure otherwise |
| Encoder.EncodeValidity | client/src/wire/qcbor_codec.cpp:198-208 | one map entry 5 is added, the reference encoding of the validity, with absent bounds left out |
| Encoder.EncodeEntitlement | client/src/wire/qcbor_codec.cpp:210-224 | one item is added, the reference encoding of the entitlement, whatever is open around it |
| Encoder.EncodePayload | client/src/wire/qcbor_codec.cpp:294-328 | for distinct identifiers the output is, octet by octet, the payload with its entitlements sorted, if that has at most 64 KiB, and a failure otherwise; with repeated ones it is that of some order a sort may give |
| Encoder.EncodeEnvelope | client/src/wire/qcbor_codec.cpp:397-408 | the output is, octet by octet, the envelope with its six labelled fields if that has at most 64 KiB, and a failure otherwise |
| Encoder.EncodeSigningInput | client/src/wire/qcbor_codec.cpp:450-463 | the output is, octet by octet, the array of the text "axlicense.credential", 1, the algorithm, the key and the payload if that has at most 64 KiB, and a failure otherwise |
| WireFormat.HeadHasOctets | reference/tools/a0_reference.py:28-42 | the shortest heads, octet by octet, for every argument of up to 64 bits |
| WireFormat.PayloadHasOctets | reference/tools/a0_reference.py:95-110 | the reference payload, octet by octet: which label carries which field, and how each is written |
| WireFormat.EnvelopeHasOctets | reference/tools/a0_reference.py:135-152 | the reference envelope, octet by octet |
| WireFormat.SigningHasOctets | reference/tools/a0_reference.py:113-116 | the reference signing input, octet by octet |
| Decoder.LookupOne | client/src/wire/qcbor_codec.cpp:138-143 | a label that occurs once is found with its own value at any position |
| Decoder.LookupMissing | client/src/wire/qcbor_codec.cpp:172-177 | a label that does not occur is reported missing |
| Meaning.LookupMeans | client/src/wire/qcbor_codec.cpp:138-183 | a label is missing exactly if no entry has it, and found exactly if one entry has it, with the value of that one |
| Decoder.ValidateStructuralBounds | client/src/wire/qcbor_codec.cpp:34-48 | passes exactly well-formed inputs of at most 512 reported items, none nested deeper than 8 |
| Decoder.CopyText | client/src/wire/qcbor_codec.cpp:97-110 | passes exactly UTF-8 text of at most 1024 bytes, unchanged |
| Decoder.DecodeEntitlement | client/src/wire/qcbor_codec.cpp:247-290 | consumes one sequential item and gives the entitlement it describes, leaving the cursor of every outer container in place |
| Decoder.DecodeEntitlements | client/src/wire/qcbor_codec.cpp:376-388 | decodes every element of the array in order, or fails if any one of them is not an entitlement |
| Decoder.DecodePayload | client/src/wire/qcbor_codec.cpp:330-395 | the calls on the context compute exactly what the parsed item means, for every byte string |
| Decoder.DecodeEnvelope | client/src/wire/qcbor_codec.cpp:410-448 | the calls on the context compute exactly what the parsed item means, for every byte string |
| Meaning.EntitlementMeans | client/src/wire/qcbor_codec.cpp:226-290 | an item decodes to an entitlement exactly if it has these labels with these values, within these limits |
| Meaning.DecodedPayloadMeans | client/src/wire/qcbor_codec.cpp:330-395 | a byte string decodes to a credential exactly if it is one item within 64 KiB, 512 items and 8 levels whose labels have these values, in any order and any width of heads |
| Meaning.DecodedEnvelopeMeans | client/src/wire/qcbor_codec.cpp:410-448 | a byte string decodes to an envelope exactly if it is one such item with these six fields |
| Codec.AppendField | client/src/wire/qcbor_codec.cpp:138-143 | adding a larger label makes that label found and every other lookup unchanged |
| Codec.EntitlementFacts | client/src/wire/qcbor_codec.cpp:210-290 | an entitlement reads back from its own encoding exactly when its texts are valid and its enumerations known |
| Codec.PayloadFacts | client/src/wire/qcbor_codec.cpp:294-395 | a payload reads back from its own encoding exactly when its texts are valid, its enumerations known and its entitlements at most 128 |
| Codec.EntitlementWalk | client/src/wire/qcbor_codec.cpp:198-224 | an entitlement has exactly 7 items, one more for each validity bound and 3 more for a constraint |
| Codec.PayloadWalk | client/src/wire/qcbor_codec.cpp:34-48 | a payload has exactly 12 items, one more if it supersedes another, plus those of its entitlements, and nests no deeper than 4 |
| Codec.RootOfEnc | client/src/wire/qcbor_codec.cpp:330-344 | regular items are encoded deterministically and read back exactly when they keep the size, item and nesting bounds |
| Codec.PayloadRoundTrip | client/src/wire/qcbor_codec.cpp:294-395 | for every credential, decoding its payload bytes gives it back if it is within the bounds, and fails otherwise |
| Codec.EnvelopeRoundTrip | client/src/wire/qcbor_codec.cpp:397-448 | for every envelope, decoding its bytes gives it back if it is within the bounds, and fails otherwise |
| Canonical.PayloadTreeIsInjective | client/src/wire/credential.cpp:175-178 | equal payload bytes describe equal credentials |
| Canonical.PayloadGateIsSound | client/src/wire/credential.cpp:175-178 | whatever the sort does, a payload that survives decoding, re-encoding and comparing is the canonical encoding of what it decodes to, and is in core deterministic form (section 4.2.1 of RFC 8949) |
| Canonical.PayloadGateIsComplete | client/src/wire/credential.cpp:175-178 | every canonical encoding of an in-bounds credential with distinct identifiers survives, with every sort |
| Canonical.PayloadGateIsExact | client/src/wire/credential.cpp:175-178 | for every sort, repeated identifiers or not, exactly the canonical encodings pass whose entitlements the sort leaves as they are |
| Canonical.PayloadIsNotMalleable | client/src/wire/credential.cpp:175-178 | two payloads that pass with the same meaning, even up to the order of entitlements, are the same bytes |
| Canonical.EnvelopeGateIsExact | client/src/wire/credential.cpp:161-164 | exactly the canonical encodings of in-bounds envelopes pass, and all of them are in core deterministic form |
| Canonical.DecoderAloneIsMalleable | client/src/wire/qcbor_codec.cpp:410-448 | the decoder alone reads every in-bounds envelope that leaves one byte of room from a second byte string, with a head that is too long, and the gate refuses that one |
| Canonical.ReorderedEnvelope | reference/tools/a0_reference.py:135-152 | the decoder alone reads an envelope with its fields in any of the 720 orders alike; the gate passes the ascending one only |
| Canonical.SigningInputIsInjective | client/src/wire/qcbor_codec.cpp:450-463 | signing inputs are injective and prefix-free in algorithm, key and payload together |
| Limits.PayloadWalksSevenEach | client/src/wire/qcbor_codec.cpp:34-48 | whatever decodes to a payload of n entitlements, canonical or not and under any limit, has at least 12 + 7n items |
| Limits.AtMost71Entitlements | client/src/wire/qcbor_codec.cpp:376-379 | no byte string that decodes holds more than 71 entitlements, and the limit of 128 refuses nothing that passes the other tests: every limit from 71 on gives the same decoder |
| Samples.ValidCredentialsDecodeUpTo71 | client/src/wire/qcbor_codec.cpp:294-395 | for every number of entitlements up to 128 there is a semantically valid credential that encodes within 64 KiB, and it reads back exactly up to 71 |
| InputOrder.SortedKeepsDecodable | client/src/wire/qcbor_codec.cpp:312-319 | whether a credential keeps the bounds of the decoder does not change when its entitlements are sorted |
| InputOrder.ReferenceRoundTrip | reference/tools/a0_reference.py:95-110 | for every credential in any order, the reference bytes decode to it with its entitlements sorted if it is within the bounds, and to nothing otherwise |
| LowS.CompareIsNumeric | client/src/wire/credential.cpp:76-80 | the comparison of equally long arrays is the comparison of integers |
| LowS.OrderValue | client/src/wire/credential.cpp:83-85 | the array is the group order of P-256 |
| LowS.HalfOrderValue | client/src/wire/credential.cpp:86-88 | the array is the number given for half the order |
| LowS.HalfIsHalf | client/src/wire/credential.cpp:86-88 | that number is half the order rounded down, and the order is odd |
| LowS.ValidLowSIsArithmetic | client/src/wire/credential.cpp:82-98 | the byte checks pass exactly when r lies in 1..n-1 and s in 1..n/2 |
| LowS.ExactlyOneComplementIsLow | reference/tools/a0_reference.py:128-132 | of s and n-s exactly one passes, and it is the one the reference signer picks |
| Verifier.ValidSemantics | client/src/wire/credential.cpp:35-74 | true exactly for semantically valid credentials, where comparing neighbours alone yields identifiers that are globally in strict order |
| Verdict.SemanticsSpelledOut | client/src/wire/credential.cpp:25-74 | which credentials those are, octet by octet: header fields, alphabet and length of identifiers, product prefix, order, kinds of validity 1 and 2 and grant semantics 1 and 2 |
| Verifier.VerifyCredential | client/src/wire/credential.cpp:154-198 | the result is that of the staged specification for some order a sort may give; what that means is proved in the modules Acceptance, Verdict and SortVerdict |
| Acceptance.FindKeyIsFirst | client/src/wire/credential.cpp:168-173 | the key used is the first of the list with the identifier, and there is none only if none has it |
| Acceptance.SigningInputFits | client/src/wire/credential.cpp:181-182 | an in-bounds envelope with a 64-byte signature always has a signing input that fits, so this stage never fails by size |
| Acceptance.ValidExactly | client/src/wire/credential.cpp:154-198 | verification succeeds exactly if the artifact is the canonical envelope around the canonical payload of a semantically valid credential, signed in low-S form by the first trusted key of that name; then it returns that credential |
| Verdict.ValidExactlyIfGenuine | client/src/wire/credential.cpp:154-198 | verification succeeds exactly for genuine artifacts, spelled out in octets and numbers, and returns their credential |
| Verdict.UnsupportedExactly | client/src/wire/credential.cpp:165-191 | it answers unsupported exactly for canonical envelopes of another kind, version, algorithm or unknown key, and for signed canonical ones of another schema; everything else is invalid |
| Acceptance.SomeArtifactIsAccepted | client/src/wire/credential.cpp:154-198 | artifacts are accepted with any number of entitlements up to 71, if their signature verifies |
| SortVerdict.VerdictDependsOnSortExactly | client/src/wire/credential.cpp:175-191 | two sorts can give different verdicts if and only if the artifact is canonical, its key is known and its signature in range and verified, its schema is unsupported, and two different entitlements share an identifier |
| SortVerdict.RepeatsGiveBoth | client/src/wire/credential.cpp:175-191 | then one sort makes the artifact unsupported and another one invalid |
| SortVerdict.SomeVerdictDependsOnSort | client/src/wire/credential.cpp:186-191 | a concrete artifact of schema 2 with two entitlements of one identifier, under a key of 64 bytes, is such a case |
| Acceptance.AcceptedIsUnique | client/src/wire/credential.cpp:161-178 | accepted artifacts with the same key, signature and meaning are the same bytes |
| Acceptance.SignedMessageDetermines | client/src/wire/credential.cpp:181-185 | the signed message alone determines algorithm, key, payload and credential of an accepted artifact |
| Acceptance.AcceptedIsDeterministic | client/src/wire/credential.cpp:161-178 | an accepted artifact and its payload are both in core deterministic form (section 4.2.1 of RFC 8949) |
| RuntimeLicenses.GrantedExactly | client/src/core/runtime_license.cpp:39-57 | for a semantically valid credential an identifier is granted exactly when it is present, its beginning has come and its end, if its kind is 2, has not, with a value exactly for semantics 2 |
| RuntimeLicenses.OnlyAcceptedGrants | client/src/core/runtime_license.cpp:9-57 | over the whole chain, something is granted exactly when the artifact is genuine and the entitlement is in it and in force; every other artifact denies at all times |
| RuntimeLicenses.RuntimeLicense.FromVerification | client/src/core/runtime_license.cpp:9-28 | the object answers every query as the verification result alone determines |
| RuntimeLicenses.RuntimeLicense.Entitled | client/src/core/runtime_license.cpp:39-57 | the loop with its early returns gives the decision of the first entry with the identifier |
| RuntimeLicenses.RuntimeLicense.Status | client/src/core/runtime_license.cpp:30-37 | revision and generation are shown exactly for a valid state |
| Identity.NextDecreases | client/src/core/identity.cpp:103-166 | every call brings a run closer to its end |
| Identity.PlayIsShort | client/src/core/identity.cpp:103-166 | every run ends by itself after at most 13 calls |
| Identity.ThirteenCallsHappen | client/src/core/identity.cpp:138-160 | the bound is reached: a run that falls back and then fails to write makes 13 calls |
| IdentityManagers.IdentityManager.LoadCommitted | client/src/core/identity.cpp:55-74 | one load of the pinned key, with the result and continuation of the automaton |
| IdentityManagers.IdentityManager.EstablishWith | client/src/core/identity.cpp:76-101 | the calls and results of the automaton, with the removal of the key on both failure paths |
| IdentityManagers.IdentityManager.EnsureIdentity | client/src/core/identity.cpp:103-166 | the result and the whole sequence of calls are those of the automaton and obey the laws of conduct, for all answers of lock, store and providers |
| Conduct.PlayObeys | client/src/core/identity.cpp:8-166 | for all answers: which call follows each reply, and for each decisive reply the result code and whether it is worth a retry, told from the calls and replies alone |
| Conduct.RefusalFallsBack | client/src/core/identity.cpp:138-160 | wherever the TPM is absent or permanently unusable, at its probe or later, the software provider is probed next exactly if that is allowed; otherwise the lock is released and the provider is unsupported |
| Conduct.UsableTpmSucceeds | client/src/core/identity.cpp:138-146 | with a usable TPM, and all else going well, the run commits the TPM identity and returns it |
| Conduct.AbsentTpmFallsBack | client/src/core/identity.cpp:155-161 | without a TPM, and all else going well, the run commits a software identity and returns it if that is allowed |
| Establishment.StepKeepsInv | client/src/core/identity.cpp:103-166 | the invariant of single runs, the lock and the file is kept by every step, crash and start of any number of runs |
| Agreement.FileIsWrittenOnce | client/src/core/identity.cpp:125-165 | in every interleaving the file goes from absent to one record at most once, and a file that exists, valid or not, is never changed, although the rename could |
| Agreement.SuccessfulRunsAgree | client/src/core/identity.cpp:55-74 | any two runs that ever return success, in any processes and at any times, return the same record, and it is the committed one |
| Agreement.SuccessHasIdentity | client/src/core/identity.cpp:88-100 | a successful run always returns an identity |
| Agreement.LockIsExclusive | client/src/core/identity.cpp:113-123 | no two live runs are ever inside the locked region |
| Agreement.EndedRunsHoldNothing | client/src/core/identity.cpp:24-33 | a run that has returned or crashed never holds the lock, whichever path it took |
| Agreement.SoftwareNeedsRefusal | client/src/core/identity.cpp:138-160 | a committed software identity means that the committing run was allowed to fall back and was told by the TPM, before its commit, that it is absent or permanently unusable |
| Agreement.LateRunsOnlyLoad | client/src/core/identity.cpp:103-108 | a run that begins once a file exists only reads it and loads the pinned key of the pinned provider |
| Agreement.AfterCommitOnlyPinnedCalls | client/src/core/identity.cpp:125-132 | once a file exists, whenever a run began, its further calls are reads, the lock, its release, and loads of the pinned key; nothing is probed, created, removed or written |
| Agreement.ExecutionKeepsAccounts | client/src/core/identity.cpp:76-101 | without an observer every key is exactly one of: present before, committed, held by the lock owner, left by a crashed owner, or reported usable without an identity |
| Agreement.CommittedKeyExists | integration-tests/windows/a1_integration.py:107-114 | without an observer the key of a committed record exists, and in a quiet system without crashes it is the only key added |
| Agreement.KeysAreFrozen | client/src/core/identity.cpp:125-132 | without an observer no key is created or removed once a file exists |
| Agreement.ObserverLosesKey | client/src/windows/machine_state_repository.cpp:252-259 | a concrete run, with a record that the state codec stores, in which a write commits and reports failure ends with the committed record and its key removed |
| Agreement.KeysSafeExactlyWithoutObserver | client/src/windows/machine_state_repository.cpp:252-259 | committed records keep their keys in all executions if and only if the store has no observer, also if only records that the state codec stores are looked at |
| Outages.DurableCommitsAgree | client/src/windows/machine_state_repository.cpp:247-248 | across any number of power losses, once the commit of an epoch is durable every later successful run returns the same record |
| Outages.AgreementEndsExactlyBeforeReturn | client/src/core/identity.cpp:95-100 | what a run returned can be contradicted after a power loss, by a record that the codec stores, if and only if the system committed it and the committing run has made no call since, so that its write has not returned |
| Outages.CommitterIsNeverContradicted | client/src/core/identity.cpp:95-100 | what the committing run itself has returned is never contradicted |
| Outages.LossIsFollowed | client/src/windows/machine_state_repository.cpp:247-248 | whatever a power loss leaves of the state file is a beginning that the next epoch may have |
| Outages.FollowersAreLosses | client/src/windows/machine_state_repository.cpp:247-248 | every beginning that the next epoch may have is what some power loss leaves of the state file |
| Outages.SomeOutageEndsAgreement | client/src/core/identity.cpp:104-108 | such a run exists: a second run returns a record that the codec stores before the first one has returned from its write |
| MutationLock.WindowsMutationLock.Acquire | client/src/windows/mutation_lock.cpp:29-61 | success exactly if nothing is held, the mutex can be opened and has no owner, abandoned or not, and then this process owns it; every failure leaves the mutex and the fields as they were |
| MutationLock.WindowsMutationLock.Release | client/src/windows/mutation_lock.cpp:63-74 | gives up what was owned and never frees a mutex of another process |
| MutationLock.KernelMutex.Abandon | client/src/windows/mutation_lock.cpp:50-53 | the end of the owning process frees the mutex, as a crash of the owner does in the system of all runs |
| MutationLock.AcquireIsPossible | client/src/windows/mutation_lock.cpp:29-61 | every attempt is a reply that the system of all runs allows, with the same effect on the owner |
| CngProvider.CngIdentityProvider.ResponseFromKey | client/src/windows/cng_identity_provider.cpp:176-195 | a usable answer carries the matching identity with 128 lower-case digits that encode the public key |
| CngProvider.CngIdentityProvider.Establish | client/src/windows/cng_identity_provider.cpp:241-279 | a usable answer means that exactly the named key, new under its name, was created, and carries the digits of its public key; every other answer is the failure of the first call that failed and leaves the key store as it was |
| CngProvider.CngIdentityProvider.LoadKey | client/src/windows/cng_identity_provider.cpp:281-300 | usable exactly if the provider and the key open and the key qualifies, only for existing keys, with the digits of the public key; every failure is the one the platform gave, and no load changes the key store |
| CngProvider.LoadedIsEstablished | client/src/windows/cng_identity_provider.cpp:176-195 | the same public key is loaded as the identical record, and the committed load succeeds with it |
| CngProvider.OtherKeyIsNotLoaded | client/src/core/identity.cpp:55-63 | another public key under the committed name means recovery |
| CngProvider.CngIdentityProvider.RemoveKey | client/src/windows/cng_identity_provider.cpp:302-315 | at most the named key is removed |
| CngProvider.EstablishedIsStorable | client/src/windows/machine_state.cpp:80-88 | an established identity under a generated name passes the validation of the state codec |
| CngProvider.EstablishIsPossible | client/src/windows/cng_identity_provider.cpp:241-279 | every establishment is a reply that the system of all runs allows, with the same effect on the keys |
| MachineState.EncodeHex | client/src/windows/machine_state.cpp:29-39 | the loop gives the Base16 text of the bytes |
| MachineState.DecodeHex | client/src/windows/machine_state.cpp:41-52 | on every even-length lower-case text the loop gives bytes whose encoding is that text |
| MachineState.HexIsInverse | client/src/windows/machine_state.cpp:20-52 | encoding gives even-length lower-case text that decodes to the same bytes |
| MachineState.HexDigits | client/src/windows/machine_state.cpp:29-39 | two digits 0 to 9 and a to f to an octet, the high one first |
| MachineState.UnhexIsInverse | client/src/windows/machine_state.cpp:20-52 | every even-length lower-case text is the encoding of what it decodes to |
| MachineState.EncodeRecord | client/src/windows/machine_state.cpp:128-162 | the stages compute the encoding function, for every platform |
| MachineState.DecodeCarrier | client/src/windows/machine_state.cpp:164-221 | the stages compute the decoding function, for every carrier and platform |
| MachineState.DocumentRoundTrip | client/src/windows/machine_state.cpp:133-217 | a valid record survives the JSON document |
| MachineState.StateRoundTrip | client/src/windows/machine_state.cpp:128-221 | if encoding succeeds, decoding the carrier returns the identical record |
| MachineState.DecodedIsValid | client/src/windows/machine_state.cpp:164-221 | decoding returns success exactly with an identity, and that identity passes the validation of the encoder |
| MachineState.EncodeSucceedsExactly | client/src/windows/machine_state.cpp:128-162 | encoding succeeds exactly for valid records that the platform protects within 1 MiB |
| StateFormat.RecordSpelledOut | client/src/windows/machine_state.cpp:74-88 | which records are valid, with every scheme, provider, prefix and length written out |
| StateFormat.DocumentSpelledOut | client/src/windows/machine_state.cpp:133-145 | under which names a record is written |
| StateFormat.RecordReadExactly | client/src/windows/machine_state.cpp:164-221 | which carriers are read as a record, with every name and version written out |
| StateFormat.UnsupportedReadExactly | client/src/windows/machine_state.cpp:164-221 | a carrier is unsupported exactly if its envelope or its document has another version; every other one that is not read is damaged |
| LawfulPlatforms.SomePlatformIsLawful | client/src/windows/machine_state.cpp:128-162 | the laws asked of the platform can be met by one that writes the compact sorted texts of the JSON library and stores every valid record |
| FileSystem.SettledNeverChanges | client/src/windows/machine_state_repository.cpp:217-248 | a file that may be reached under the state name is never written again, not even by a power loss |
| FileSystem.StepKeepsInv | client/src/windows/machine_state_repository.cpp:204-260 | every step of any number of writers and readers and every power loss keeps the invariant: whatever the state name stood for is complete and durable |
| CrashSafety.VisibleIsComplete | client/src/windows/machine_state_repository.cpp:145-174 | at every moment the state name stands for nothing or for the complete data of one writer |
| CrashSafety.RegisterChangesByRename | client/src/windows/machine_state_repository.cpp:247-248 | only a rename and a power loss change what is read, and a rename shows all of its writer's data at once |
| CrashSafety.LossLeavesCompleteState | client/src/windows/machine_state_repository.cpp:204-260 | a power loss leaves the complete contents of something the state name stood for and was not superseded durably, whatever happens to temporary files |
| CrashSafety.UnreachedRenameNeverShows | integration-tests/windows/a1_integration.py:43-49 | a writer that has not reached its rename never shows, before or after a power loss |
| CrashSafety.FinishedWriteIsDurable | client/src/windows/machine_state_repository.cpp:247-255 | data whose write has returned keeps its position in every later state, after any number of power losses |
| CrashSafety.ReaderSeesSnapshot | client/src/windows/machine_state_repository.cpp:145-174 | a completed read returns in full, and with its own size, what the state name stood for when it was opened, whatever was replaced in between |
| Durability.UndoneExactlyBeforeReturn | client/src/windows/machine_state_repository.cpp:247-255 | over every run, a power loss can put back exactly what a rename replaced if and only if no write whose rename is that one or a later one has returned; from then on every power loss keeps it |
| Durability.ReadThenLost | client/src/windows/machine_state_repository.cpp:145-174 | for any two contents there is a run in which a read completes with the new ones and a power loss then leaves the old ones |
| StoreSpec.LossIsOldOrNew | client/src/windows/machine_state_repository.cpp:204-260 | a power loss at any moment of a write leaves the old state or the complete new one; the new one once it is durable |
| StoreSpec.ExecutionExtends | client/src/windows/machine_state_repository.cpp:145-174 | between two power losses everything that was readable under an open handle stays as it was, which is what a read relies on |
| StoreSpec.DenialIsReportedExactly | client/src/windows/machine_state_repository.cpp:226-251 | when a call of the write fails for lack of access, the caller learns so if and only if the temporary file was not open then and its deletion did not fail for another reason |
| StoreSpec.DeniedFlush | client/src/windows/machine_state_repository.cpp:236-239 | whatever identity is written, a flush that is denied leaves the temporary file and reports another failure |
| StoreSpec.ObserverHidesCommit | client/src/windows/machine_state_repository.cpp:252-259 | wherever a write can begin, for every identity that encodes, an observer that throws after the replace makes it take effect and report a failure, and nothing else |
| StoreSpec.RenameCommits | client/src/windows/machine_state_repository.cpp:247-255 | renaming a flushed temporary file makes its data the state, and the write-through makes it durable |
| StoreSpec.WriteIsPossible | client/src/windows/machine_state_repository.cpp:204-260 | every write is one of the replies the concurrent model allows, and then reading decodes to the identical record: the store is the register of first establishment |
| StoreSpec.DecodeOutcomes | client/src/windows/machine_state.cpp:164-221 | decoding reports success, damage or an unsupported version and nothing else; an empty or oversized carrier is always damage |
| StateStore.MachineStateStore.Read | client/src/windows/machine_state_repository.cpp:145-174 | absent is reported only if there is no state, success only with the record that is stored, whatever happens to the name between the calls of one read, and every outcome is pinned by the calls that fail; the reply is one that the system of all runs allows |
| StateStore.MachineStateStore.PrepareForMutation | client/src/windows/machine_state_repository.cpp:176-202 | success exactly if the root is secured and the trial file can be made and deleted; a failure to secure is returned as it is, missing privilege is reported exactly if the trial file cannot be made for lack of access, and the trial file stays exactly if it cannot be deleted; the state name is untouched at every moment |
| StateStore.MachineStateStore.WriteTemp | client/src/windows/machine_state_repository.cpp:213-246 | until the rename the state name is untouched at every moment; going on means a complete and flushed temporary file, and a failure states exactly what is left and reported |
| StateStore.MachineStateStore.FillTemp | client/src/windows/machine_state_repository.cpp:217-243 | a failing call on the open temporary file always leaves the file and never reports missing privilege; an exception of the observer leaves it only if the deletion fails |
| StateStore.MachineStateStore.MoveTemp | client/src/windows/machine_state_repository.cpp:244-259 | the rename commits whole and durably, or leaves the state name and reports the failure of the rename or, if that fails too, of the deletion |
| StateStore.MachineStateStore.Write | client/src/windows/machine_state_repository.cpp:204-260 | the write takes steps of the file system machine only and is atomic and durable: it takes effect whole or not at all, every moment in between is old or new, and it fails after taking effect only if the observer throws after the replace; it states exactly when its temporary file is left and when missing privilege is reported |

## Left out

- QCBOR and nlohmann/json: their sources are not part of this model. The first is modelled from the wire format and the calls made on it, the second as a JSON tree whose parser inverts its printer.
- QCBOR's own limits on nesting and on counts, which are wider than the bounds the codec enforces itself.
- QCBOR buffer management: the buffer is a sequence that never exceeds a capacity, not a fixed array that is written in place.
- Cryptography, data protection, handles and access control: parameters, or choices of the environment with stated contracts.
- Atomicity of the rename on one volume, ordered durability of renames, and exclusion by a named mutex: assumptions of the model.
- Power loss and key stores: in `Outages` a power loss keeps every key.
- Outages.AgreementEndsExactlyBeforeReturn: assumes that some valid key name is free; there are 2^128 of them.
- Deleting a file that is open without sharing fails with a sharing violation: an assumption of the model, from the documentation of the platform.
- Random names: the environment chooses them; a name in use makes the creation of a file or key fail.
- Enumerations of the credential are raw octets, because an enumeration of the source can hold any octet; strings of 2^64 bytes and more are not modelled.
- Command-line dispatch, JSON output and the status mapping of the key provider (`map_cng_status`): small tables.
- Server, grant, revision, refresh and rehost rules: no code in the modelled files implements them.
- Test adapters and drivers, benchmark, evidence and toolchain scripts.
- Decoder.DecodePayload: floating-point numbers and simple values are one kind of item that no field accepts, and tags are dropped without a check of their content.
- Decoder.DecodeEnvelope: the same simplification of tags, floating-point numbers and simple values.
- Decoder.ValidateStructuralBounds: the traversal reports the levels of the parsed items; that the library parses while it traverses is not captured.
- Credentials.SortInPlace: sorts the entitlements themselves, not pointers to them, with an algorithm of its own; callers use its contract only.
- MachineState.DecodeCarrier: floating-point numbers in integer fields are read as errors, where the library would truncate them; failures of the protector other than damage do not occur, as with the production protector.
- MachineState.StateRoundTrip: assumes that the protector inverts itself and gives non-empty output, and that parsing inverts printing on the two kinds of document that are written and rejects the empty text.
- StateStore.MachineStateStore.Write: if the observer throws before the temporary file is made, its name is assumed not to be that of another writer at work, as it holds the process id and 64 random bits.
- CngProvider.CngIdentityProvider.Establish: the deletion of a half-made key is assumed to succeed, where the source makes its best effort.
- CngProvider.CngIdentityProvider.RemoveKey: opening and deleting an existing key is assumed to succeed once the provider opens, where the source makes its best effort.
- Agreement.ExecutionKeepsAccounts: a removal always deletes the key; with a removal that fails, that key would count as left behind.
- StateStore.MachineStateStore.Read: opening a state file that exists never reports that it is not found.
- StateStore.MachineStateStore.PrepareForMutation: the security of the state root is one outcome of the environment.
