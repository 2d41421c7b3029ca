# Kirje verification

Kirje is a mail client whose mail-changing operations are governed: they are
planned, approved by a person, applied at most once, and recorded in an audit
log. This project models its core in Dafny and proves what that core is for.

- **Canonical transcripts.** Manifests, authorizations and proofs are tag/length/value
  transcripts under domain constants. Encoders and strict parsers are inverse, for
  all 17 payloads and every field codec, and the tables that the two sides keep
  separately agree. What can be sealed is stated for every payload as one rule that
  uses none of the validators, and what a signature covers is read from its bytes.
  Chains of account manifests spell exactly the runs of one automaton.
- **The operation ledger.** Rows and events as a class whose methods are transactions,
  and a machine of any number of processes that plan, approve, claim, call the remote
  adapter, crash and finish: at most one invocation, and never more certainty than
  the acknowledged commands allow, and only commands that carry out what was approved.
  Every call is matched against a reference, and commands have a meaning on mailboxes.
- **Mailbox sync.** A bounded window over a server that grows, expunges and renumbers:
  no hole in the indexed range, each row the last answer for its own UID, and
  convergence in the expected number of batches.
- **Lexical preflight.** A one-pass scanner with a stack accepts exactly the documents
  whose parts are within their limits, counting characters and Base64 lengths without
  decoding.
- **Local files.** A bounded reader against an adversarial stream, and compare-and-swap
  replacement of the configuration file by concurrent writers.

SHA-256, IP-literal parsing, payload deserialisation, Unicode lower-casing and the
syntax of identifiers are function-valued parameters, so every theorem holds for all
of them; nowhere is a hash assumed to be free of collisions. Clocks, the order in
which a query returns its rows, server replies, search order and failures are
arguments that the theorems quantify over. Errors carry their stable codes; message
texts are not modelled.

Where the code does not do what its names or comments suggest, the model follows the
code, says exactly when the expectation holds, and shows an input where it does not:

- A manifest with more than 100 cleanup descriptors can be sealed but not parsed
  (`Manifests.ManifestRoundTrip`; `Chains.SomeSealedManifestDoesNotParse`).
- Discarding a draft appends its event even if the draft had expired meanwhile
  (`LedgerFacts.AuditRefinesRows`; `LedgerFacts.ExpiredDraftIsDiscarded`).
- The Base64 length check named canonical accepts set left-over bits
  (`JsonText.CanonicalBase64`; `JsonText.Base64AcceptsTrailingBits`).
- The bounded reader's requests stay within limit + 1 bytes of the stream, but their
  sizes can sum to more (`BoundedRead.RequestAccounting`, `BoundedRead.SmallLimitTotal`;
  `BoundedRead.RequestsCanSumPastLimit`).
- A sync with nothing new can still index one older message
  (`SyncConverges.IdleSync`; `SyncConverges.OlderMessageIsIndexed`).
- One snapshot alone may be Bound under Mismatch; no chain of mutations gets there
  (`Lifecycle.BoundSnapshotStates`; `Chains.SomeSnapshotIsBoundUnderMismatch`).
- A file put in place between the second check of a replacement and its rename, by a
  writer that ignores the lock, is overwritten (`ConfigFile.Directory.Commit`).

## Layout

| files | content |
|---|---|
| Basics, Utf8, Encodings | fixed-width integers, error codes, big-endian bytes, UTF-8, and writers for what is read |
| Framing, Domains, Wire | records, transcripts, lists, field values |
| Accounts, Actions | bindings, locations, the action table |
| ManifestTypes, SendCodec, MailboxCodec, AccountCodec, TrustCodec, Manifests | payload codecs and manifests |
| TextRules, Acceptance, SealedExactly | exactly what can be sealed, said without the validators |
| WireLayout, WireParts | which numbered field of a transcript holds what |
| Authorization, AuthorizationRules | derived authorizations and proofs |
| Lifecycle, Sealing, Chains, TrustChains | chains of account and trust manifests, and which of them exist |
| Ledger, LedgerFacts, LedgerEffects, LedgerReference, LazyReconcile | the ledger, its invariants, its reference, lazy reconciliation |
| ImapAdapter, MailboxEffects | remote commands, and what they do to mailboxes |
| Runtime, LedgerRuns, ProcessRuns, PlannedCommands | service calls, the machine of processes, how they agree, and what is sent |
| SyncIndex, SyncRuns, SyncContent, SyncConverges | sync and index |
| JsonText, Preflight, PreflightTree, PreflightExact | the lexical pass |
| Like, BoundedRead, ConfigFile, ConfigWriters | filters, bounded reads, the configuration file |

`dafny verify dfyconfig.toml` checks everything.

## Model

| member | source | states |
|---|---|---|
| `Framing.FramingIsBijective` | crates/kirje-core/src/account.rs:454-478 | bytes parse to a field list exactly when they are its encoding and it has at most 256 fields |
| `Framing.EncodeFieldsExact` | crates/kirje-core/src/account.rs:454-478 | encoding succeeds exactly on strictly increasing tags within the integer widths, and yields the wire format written out independently |
| `Framing.EncodingIsInjective` | crates/kirje-core/src/account.rs:454-478 | equal encodings have equal fields, for every number of fields the encoder accepts |
| `Framing.EncodeFieldsLoop` | crates/kirje-core/src/account.rs:454-478 | the appending loop computes the encoding, or the first error in field order |
| `Framing.ParseFieldsAnyLoop` | crates/kirje-core/src/authorization.rs:3357-3399 | the cursor loop over the whole transcript computes the parse: domain, count bound, strictly increasing tags, nothing left over |
| `Framing.ParseBodyLoop` | crates/kirje-core/src/authorization.rs:3371-3394 | the field loop returns exactly the fields at the front and the cursor after them |
| `Framing.Take` | crates/kirje-core/src/authorization.rs:3401-3410 | a slice is returned and the cursor moved exactly when enough bytes are left; otherwise the cursor stays |
| `Framing.TakeRecord` | crates/kirje-core/src/authorization.rs:3377-3392 | head, length and payload are read exactly as one record splits off the front |
| `Framing.ParseFieldsOfEncoding` | crates/kirje-core/src/authorization.rs:3345-3355 | a parse with an exact field count returns what was encoded |
| `Framing.EncodedSize` | crates/kirje-core/src/account.rs:454-478 | the encoded length is the domain, the count and six bytes of head per field |
| `Framing.EncodeListLoop` | crates/kirje-core/src/authorization.rs:3424-3443 | the list encoder's loop computes the ordinal-numbered encoding, with the first item error |
| `Framing.ParseListLoop` | crates/kirje-core/src/authorization.rs:3445-3483 | the list parser's loop computes the parse, refusing a wrong ordinal, a bad item or left-over bytes |
| `Framing.ListRoundTrip` | crates/kirje-core/src/authorization.rs:3424-3483 | every encodable list of items that decode to themselves parses back to itself, or hits the item limit |
| `Framing.ListBytesAreCanonical` | crates/kirje-core/src/authorization.rs:3424-3483 | bytes accepted as a list are the encoding of the items returned, if the item parser accepts canonical bytes only |
| `Framing.DomainsSeparate` | crates/kirje-core/src/authorization.rs:20-32 | two NUL-terminated domain constants that prefix the same bytes are equal |
| `Domains.TranscriptsNeverCollide` | crates/kirje-core/src/authorization.rs:20-32 | transcripts under different domain constants never have equal bytes, whatever their fields |
| `WireParts.FieldLayout` | crates/kirje-core/src/account.rs:454-478 | a field is its tag in two bytes, its length in four, most significant byte first, and its value |
| `WireParts.TranscriptLayout` | crates/kirje-core/src/account.rs:454-478 | a transcript is its domain, its field count in two bytes, and its fields in order |
| `WireParts.SignedLayout` | crates/kirje-core/src/authorization.rs:3555-3557 | the bits of a signed number are the number modulo 2^64 |
| `Encodings.BigEndian` | crates/kirje-core/src/account.rs:454-478 | two- and four-byte integers, byte by byte, most significant first |
| `Encodings.Utf8IsExact` | crates/kirje-core/src/authorization.rs:3611-3615 | a scalar is read at the front of a text exactly when its UTF-8 encoding stands there |
| `Wire.U16Bytes` | crates/kirje-core/src/authorization.rs:3543-3545 | the two bytes of a u16 parse back to it |
| `Wire.U32Bytes` | crates/kirje-core/src/authorization.rs:3547-3549 | the four bytes of a u32 parse back to it |
| `Wire.U64Bytes` | crates/kirje-core/src/authorization.rs:3551-3553 | the eight bytes of a u64 parse back to it |
| `Wire.I64Bytes` | crates/kirje-core/src/authorization.rs:3555-3557 | the two's-complement bytes of an i64 parse back to it |
| `Wire.NonZeroU32Bytes` | crates/kirje-core/src/authorization.rs:3559-3561 | a positive u32 parses back through the parser that refuses zero |
| `Wire.NonZeroU64Bytes` | crates/kirje-core/src/authorization.rs:3563-3565 | a positive u64 parses back through the parser that refuses zero |
| `Wire.OptionalU64Bytes` | crates/kirje-core/src/authorization.rs:3567-3573 | an absent and a present u64 both parse back |
| `Wire.UuidBytes` | crates/kirje-core/src/authorization.rs:3502-3508 | a version-4 UUID parses back from its sixteen bytes |
| `Wire.OptionalUuidBytes` | crates/kirje-core/src/authorization.rs:3510-3519 | an optional UUID parses back, the empty field standing for none |
| `Wire.Bytes32Bytes` | crates/kirje-core/src/authorization.rs:3521-3523 | a digest parses back from its 32 bytes |
| `Wire.OptionalDigestBytes` | crates/kirje-core/src/authorization.rs:3525-3531 | an optional digest parses back |
| `Wire.BoolBytes` | crates/kirje-core/src/authorization.rs:3575-3581 | a flag parses back from its one byte |
| `Wire.OptionalBoolBytes` | crates/kirje-core/src/authorization.rs:3583-3589 | an optional flag parses back |
| `Wire.TextBytes` | crates/kirje-core/src/authorization.rs:3611-3615 | a string's UTF-8 bytes parse back to it |
| `Wire.OptionalTextBytes` | crates/kirje-core/src/authorization.rs:3591-3609 | an absent text and an empty one are told apart and both parse back |
| `Wire.IntegersAreStrict` | crates/kirje-core/src/authorization.rs:3543-3557 | bytes accepted as an integer are that integer's encoding |
| `Wire.OptionsAreStrict` | crates/kirje-core/src/authorization.rs:3510-3609 | bytes accepted as an optional value are its encoding |
| `Actions.CodeRoundTrip` | crates/kirje-core/src/authorization.rs:119-154 | every action is found again from its permanent code by the search over the table |
| `Actions.KindCodesRoundTrip` | crates/kirje-core/src/authorization.rs:291-362 | target and effect kinds are recovered from their codes |
| `Actions.TargetRoundTrip` | crates/kirje-core/src/authorization.rs:416-448 | a target is recovered from its kind and bytes |
| `SendCodec.AddressRoundTrip` | crates/kirje-core/src/authorization.rs:511-526 | an address parses back from its transcript, within its size bound |
| `SendCodec.SummaryRoundTrip` | crates/kirje-core/src/authorization.rs:2171-2188 | an attachment summary parses back |
| `SendCodec.AttachmentRoundTrip` | crates/kirje-core/src/authorization.rs:1528-1604 | an attachment parses back, within its size bound |
| `SendCodec.SendRoundTrip` | crates/kirje-core/src/authorization.rs:1451-1526 | every validated send parses back from its own sixteen fields, which fit the manifest size budget |
| `MailboxCodec.MailboxRoundTrip` | crates/kirje-core/src/authorization.rs:1606-1703 | all five mailbox payloads parse back from one record |
| `AccountCodec.EndpointRoundTrip` | crates/kirje-core/src/authorization.rs:1837-1884 | an endpoint snapshot parses back, and is validated again on the way |
| `AccountCodec.SnapshotRoundTrip` | crates/kirje-core/src/authorization.rs:1992-2031 | an account snapshot parses back |
| `AccountCodec.OptionalSnapshotRoundTrip` | crates/kirje-core/src/authorization.rs:2378-2413 | an absent and a present snapshot both parse back |
| `AccountCodec.ConfigCasRoundTrip` | crates/kirje-core/src/authorization.rs:1825-1835 | a configuration compare-and-swap token parses back |
| `AccountCodec.CleanupDescriptorRoundTrip` | crates/kirje-core/src/authorization.rs:2033-2043 | a cleanup descriptor parses back |
| `AccountCodec.CleanupListRoundTrip` | crates/kirje-core/src/authorization.rs:2237-2251 | a cleanup list parses back exactly up to 100 descriptors; the encoder has no such limit |
| `AccountCodec.MutationRoundTrip` | crates/kirje-core/src/authorization.rs:1713-1747 | an account mutation parses back exactly when it has at most 100 cleanup descriptors |
| `AccountCodec.CredentialMutationRoundTrip` | crates/kirje-core/src/authorization.rs:1749-1755 | a credential mutation parses back under the same condition |
| `AccountCodec.EnrollRoundTrip` | crates/kirje-core/src/authorization.rs:1705-1711 | a store enrollment parses back |
| `AccountCodec.CleanupRoundTrip` | crates/kirje-core/src/authorization.rs:1757-1772 | a credential cleanup parses back |
| `AccountCodec.ParsedDescriptorIsCanonical` | crates/kirje-core/src/authorization.rs:2448-2457 | bytes accepted as a cleanup descriptor are its transcript |
| `AccountCodec.CleanupListIsCanonical` | crates/kirje-core/src/authorization.rs:2237-2251 | bytes accepted as a cleanup list are the encoding of that list |
| `AccountCodec.ParsedConfigCasIsCanonical` | crates/kirje-core/src/authorization.rs:2367-2376 | bytes accepted as a configuration token are its transcript |
| `AccountCodec.ParsedCleanupIsCanonical` | crates/kirje-core/src/authorization.rs:2268-2280 | fields accepted as a credential cleanup are its own fields |
| `TrustCodec.RotationRoundTrip` | crates/kirje-core/src/authorization.rs:1774-1788 | a key rotation parses back |
| `TrustCodec.RecoverRoundTrip` | crates/kirje-core/src/authorization.rs:1790-1804 | an owner recovery parses back |
| `TrustCodec.CloseRoundTrip` | crates/kirje-core/src/authorization.rs:1806-1823 | the closing of an ambiguous effect parses back, whatever the length of its text |
| `Manifests.HeadRoundTrip` | crates/kirje-core/src/authorization.rs:1371-1419 | the nine common fields parse back to the context and the action |
| `Manifests.PayloadRoundTrip` | crates/kirje-core/src/authorization.rs:2053-2103 | each of the 17 payloads parses back under its own action, or is refused for its cleanup list alone |
| `Manifests.ManifestFitsGate` | crates/kirje-core/src/authorization.rs:970-973 | no manifest with at most 100 cleanup descriptors reaches the 4 MiB gate |
| `Manifests.ManifestRoundTrip` | crates/kirje-core/src/authorization.rs:949-1006 | for every context and payload that can be sealed, parsing the canonical bytes returns the same manifest exactly when there are at most 100 cleanup descriptors, and otherwise a resource limit |
| `Manifests.ParsedManifestIsSealed` | crates/kirje-core/src/authorization.rs:970-1006 | accepted bytes are the canonical bytes of what they yield, which sealing accepts |
| `TextRules.EmailIsExact` | crates/kirje-core/src/authorization.rs:3617-3629 | an address is accepted exactly when it has one @ with something on both sides, a dot after it, at most 320 bytes, and no space or control character |
| `TextRules.SplitIsExact` | crates/kirje-core/src/mail.rs:122-145 | splitting finds the one way to read a text as pieces joined by a separator none of them holds |
| `TextRules.HostIsExact` | crates/kirje-core/src/mail.rs:122-145 | a host is accepted exactly when it is at most 253 bytes, has no space at either end, and is an address literal or dot-separated labels |
| `TextRules.MimeIsExact` | crates/kirje-core/src/authorization.rs:3651-3666 | a media type is accepted exactly when one slash stands between two non-empty tokens |
| `TextRules.TokensAreExact` | crates/kirje-core/src/authorization.rs:3631-3649 | message ids and boundaries are accepted exactly within their lengths and the printable ASCII range |
| `Acceptance.SnapshotIsExact` | crates/kirje-core/src/authorization.rs:1886-1981 | a snapshot validates exactly when its names, endpoints, states, cleanup ids and digest are as written out without any validator |
| `Acceptance.EndpointIsExact` | crates/kirje-core/src/authorization.rs:1837-1884 | an endpoint passes both checks exactly when it is reachable and its canonical host is its exact one's canonical spelling, which is then what is bound |
| `Acceptance.BindingIsOfCanonical` | crates/kirje-core/src/account.rs:254-300 | the bound transcript is that of the snapshot's own canonical spellings, field by field |
| `Acceptance.ConfigIsExact` | crates/kirje-core/src/mail.rs:43-120 | what an account configuration must be, exactly; OAuth2 is refused there |
| `SealedExactly.SendEncodes` | crates/kirje-core/src/authorization.rs:1451-1526 | a send is encodable exactly within its recipient, text, attachment and reference limits, with everything it names well-formed |
| `SealedExactly.MailboxIsExact` | crates/kirje-core/src/authorization.rs:1641-1703 | a mailbox operation is accepted exactly when value, destinations, special use and strategy fit its kind |
| `SealedExactly.SealedExactlyWhen` | crates/kirje-core/src/authorization.rs:949-967 | for every context and all 17 payloads, sealing succeeds if and only if the context and the payload satisfy a rule written without the validators |
| `SealedExactly.ParsedIsSealable` | crates/kirje-core/src/authorization.rs:970-1006 | parsed manifests satisfy the same rule |
| `WireLayout.HeadSays` | crates/kirje-core/src/authorization.rs:1371-1419 | fields 1, 2 and 8 of every sealed manifest hold the permanent codes of its action, target kind and effect |
| `WireLayout.ContextSays` | crates/kirje-core/src/authorization.rs:1371-1419 | fields 3 to 7 and 9 hold the context, each its own |
| `WireLayout.ManifestSays` | crates/kirje-core/src/authorization.rs:1421-1823 | every part of every payload is read back from the one numbered field that is its own |
| `WireParts.AddressSays` | crates/kirje-core/src/authorization.rs:511-519 | field 1 of an address is the display name, field 2 the email |
| `WireParts.SummarySays` | crates/kirje-core/src/authorization.rs:1586-1604 | the four fields of an attachment summary |
| `WireParts.AttachmentSays` | crates/kirje-core/src/authorization.rs:1564-1584 | the five fields of an attachment |
| `WireParts.EndpointSays` | crates/kirje-core/src/authorization.rs:1837-1884 | the six fields of an endpoint |
| `WireParts.SnapshotSays` | crates/kirje-core/src/authorization.rs:1992-2031 | the fifteen fields of an account snapshot |
| `WireParts.ConfigCasSays` | crates/kirje-core/src/authorization.rs:1825-1835 | the four fields of a configuration token |
| `WireParts.DescriptorSays` | crates/kirje-core/src/authorization.rs:2033-2043 | the four fields of a cleanup descriptor |
| `TrustChains.KeyIdsTellKeysApart` | crates/kirje-core/src/authorization.rs:3097-3104 | what a key id is the digest of determines the role and the key |
| `TrustChains.RotationReplacesTheKey` | crates/kirje-core/src/authorization.rs:1116-1149 | a sealed rotation installs another key of the same role with that role's permissions, ids being the digests of the keys, one epoch on, under a context that names the old epoch only |
| `TrustChains.RecoverySeparatesRoles` | crates/kirje-core/src/authorization.rs:1151-1170 | a sealed recovery's two key ids are digests of different bytes even for one key, one epoch on |
| `TrustChains.EpochsCount` | crates/kirje-core/src/authorization.rs:1172-1174 | over every chain of trust changes the epoch rises by one each |
| `TrustChains.NoEpochTwice` | crates/kirje-core/src/authorization.rs:1116-1174 | no two manifests of a chain have one epoch, one byte string, or one authorization byte string |
| `Authorization.MutationTablesAgree` | crates/kirje-core/src/authorization.rs:1194-1261 | the account-mutation validator implies the parser's presence row |
| `Authorization.CredentialTablesAgree` | crates/kirje-core/src/authorization.rs:1263-1349 | the credential-mutation validator implies the parser's presence row |
| `Authorization.TablesAgree` | crates/kirje-core/src/authorization.rs:3024-3067 | for all 17 payloads the manifest's context validators imply the separately written presence table |
| `Authorization.EffectsAgree` | crates/kirje-core/src/authorization.rs:2731-2739 | the derived effect list is the one the parser demands of the action |
| `Authorization.EffectRoundTrip` | crates/kirje-core/src/authorization.rs:2996-3007 | an effect parses back, and one of kind none is refused |
| `Authorization.BodyRoundTrip` | crates/kirje-core/src/authorization.rs:2923-2994 | any body that keeps the parser's rules is encodable and parses back |
| `Authorization.DerivationIsClosedUnderParsing` | crates/kirje-core/src/authorization.rs:2723-2877 | for every sealed manifest the derivation succeeds exactly for lifetimes in (0, 900000] ms, and the parser returns it unchanged |
| `Authorization.DerivationNamesItsManifest` | crates/kirje-core/src/authorization.rs:2723-2785 | parsing a derived authorization yields the digest of exactly the manifest's bytes, its action, context and effect, and exactly the grant |
| `Authorization.TranscriptSays` | crates/kirje-core/src/authorization.rs:2923-2994 | which of the seventeen fields of the signed bytes holds what |
| `Authorization.AuthorizationsTellManifestsApart` | crates/kirje-core/src/authorization.rs:2723-2785 | sealed manifests with equal authorization bytes have equal digests, actions, contexts and grants |
| `AuthorizationRules.KeptIsParsed` | crates/kirje-core/src/authorization.rs:2787-2877 | every body that keeps the row of its action in one table has a transcript, and it parses back |
| `AuthorizationRules.ParsedIsKept` | crates/kirje-core/src/authorization.rs:3009-3082 | nothing else parses: accepted bytes are the transcript of a body that keeps its row for at most fifteen minutes |
| `Authorization.ParsedAuthorizationIsCanonical` | crates/kirje-core/src/authorization.rs:2787-2877 | accepted bytes are the canonical bytes of the body, which fits the table, the effect rule and the lifetime |
| `Authorization.ProofRoundTrip` | crates/kirje-core/src/authorization.rs:3173-3193 | every proof is encodable, and bytes parse to it exactly when they are its encoding |
| `WireParts.ProofSays` | crates/kirje-core/src/authorization.rs:3233-3249 | the four fields of a proof |
| `Lifecycle.SealedStep` | crates/kirje-core/src/authorization.rs:1194-1349 | what one accepted mutation guarantees about the snapshots before and after it |
| `Lifecycle.ChainsRunTheAutomaton` | crates/kirje-core/src/authorization.rs:1194-1369 | over every chain the actions spell a run of the automaton, the last snapshot is valid and as its phase describes, and its generation is one more than the mutations since creation |
| `Lifecycle.BoundMeansJustSet` | crates/kirje-core/src/authorization.rs:1886-1981 | a final snapshot is Bound exactly when the last mutation is CredentialSet, and is then Authorized and not OAuth2 |
| `Lifecycle.IdentityIsConstant` | crates/kirje-core/src/authorization.rs:1194-1349 | account id and display id never change between creation and removal |
| `Lifecycle.MaterialIsConstant` | crates/kirje-core/src/authorization.rs:1359-1369 | setting and deleting credentials leaves the bound material alone |
| `Lifecycle.UpdateUnbinds` | crates/kirje-core/src/authorization.rs:1263-1349 | after an update no snapshot is Bound before a new CredentialSet |
| `Lifecycle.BoundIsWhatWasSigned` | crates/kirje-core/src/authorization.rs:1323-1348 | a Bound snapshot carries the credential id, account id and binding digest its CredentialSet was signed for |
| `Lifecycle.DigestOfConfig` | crates/kirje-core/src/authorization.rs:1962-1981 | a valid snapshot's digest is the hash of its own configuration's binding transcript |
| `Lifecycle.DigestsTellMaterialApart` | crates/kirje-core/src/authorization.rs:1351-1369 | equal material gives equal digests, different material gives different transcripts, so equal digests then are a hash collision |
| `Lifecycle.BoundSnapshotStates` | crates/kirje-core/src/authorization.rs:1935-1960 | making a valid snapshot Bound keeps it valid exactly when it is not OAuth2 and its binding is Authorized or Mismatch; no chain reaches the latter |
| `Sealing.SnapshotEncodes` | crates/kirje-core/src/authorization.rs:1992-2031 | a snapshot that validates always has a transcript |
| `Sealing.MutationEncodes` | crates/kirje-core/src/authorization.rs:1713-1747 | a mutation is encodable exactly when its snapshots are valid and its cleanup list fits the 16-bit count |
| `Sealing.GoodStepIsSealable` | crates/kirje-core/src/authorization.rs:1194-1349 | the converse of the step guarantees: every step the lifecycle rules admit can be sealed, under any configuration token |
| `Sealing.LongCleanupSealsButDoesNotParse` | crates/kirje-core/src/authorization.rs:2237-2251 | every admitted step with any countable cleanup list seals, and its bytes parse back exactly up to 100 descriptors |
| `Chains.ChainsExtend` | crates/kirje-core/src/authorization.rs:949-967 | every chain can be continued by any admitted step |
| `Chains.EdgesAreRealised` | crates/kirje-core/src/authorization.rs:1207-1322 | for every action and every valid snapshot in a phase, a step is admitted exactly when the automaton has that edge, but that an OAuth2 account is never bound; creations and updates included |
| `Chains.EveryRunIsAChain` | crates/kirje-core/src/authorization.rs:1194-1369 | every run of the automaton is spelled by some chain, for any valid account that is not OAuth2; with the converse, the automaton's language is exact |
| `Chains.BoundAccountsAreUpdated` | crates/kirje-core/src/authorization.rs:1194-1369 | an account that is created, bound and then updated exists |
| `Chains.SomeSealedManifestDoesNotParse` | crates/kirje-core/src/authorization.rs:970-1006 | a manifest with 101 cleanup descriptors that seals and is refused by the parser |
| `Chains.SomeSnapshotIsBoundUnderMismatch` | crates/kirje-core/src/authorization.rs:1886-1981 | a valid snapshot that is Bound under Mismatch |
| `Accounts.BindingIsInjective` | crates/kirje-core/src/account.rs:254-300 | two configurations have equal binding bytes exactly when their material is the same up to host normalisation |
| `Accounts.NormalizedHostExact` | crates/kirje-core/src/account.rs:410-428 | normalised hosts are equal exactly for one IP address or DNS names equal up to ASCII case |
| `Accounts.LocationIsInjective` | crates/kirje-core/src/account.rs:333-388 | different locations, Unix or Windows, never share a transcript |
| `Accounts.LocationEncodesExactly` | crates/kirje-core/src/account.rs:395-408 | a location encodes exactly when its component is non-empty and at most 4096 bytes |
| `WireParts.LocationSays` | crates/kirje-core/src/account.rs:333-388 | which field of a location holds device, inode, serial, index and component |
| `Ledger.Store.CreateOperation` | crates/kirje-store/src/outbox.rs:194-238 | inserting a fresh planned row and its event, or refusing and changing nothing |
| `Ledger.Store.GetOperation` | crates/kirje-store/src/outbox.rs:240-254 | reconciles and commits before reporting; an error rolls everything back |
| `Ledger.Store.OperationTransition` | crates/kirje-store/src/outbox.rs:532-573 | approve and claim as one transaction: reconcile, check, update, append, or roll all of it back |
| `Ledger.Store.MoveRow` | crates/kirje-store/src/outbox.rs:545-570 | the update and its event after reconciliation |
| `Ledger.Store.FinishOperation` | crates/kirje-store/src/outbox.rs:575-607 | only an applying row is finalised, without reconciliation |
| `Ledger.Store.UpdateDraftRow` | crates/kirje-store/src/outbox.rs:465-497 | one transaction or a rollback; what it writes is stated by LedgerReference.CallMeetsReference |
| `Ledger.Store.DiscardDraftRow` | crates/kirje-store/src/outbox.rs:509-528 | the guarded update and the unguarded event of the second transaction |
| `Ledger.Store.ReconcileOperations` | crates/kirje-store/src/outbox.rs:699-767 | the two loops, in whatever order the engine returns the rows |
| `Ledger.Store.SweepRows` | crates/kirje-store/src/outbox.rs:704-731 | one loop over the selected ids: update, read back, append, or fail |
| `Ledger.Store.OperationInTransaction` | crates/kirje-store/src/outbox.rs:609-658 | a row is read back, or refused when its digest does not match its payload |
| `Ledger.Store.RecordEvent` | crates/kirje-store/src/outbox.rs:676-697 | the event appended carries what was read back |
| `Ledger.Store.Audit` | crates/kirje-store/src/outbox.rs:391-407 | the oldest events of one operation, in append order, up to the limit |
| `LedgerFacts.ReconcileIsPointwise` | crates/kirje-store/src/outbox.rs:699-767 | on a sound store reconciliation cannot fail and settles each row on its own, with at most one event, in any order of rows |
| `LedgerFacts.ReconcileIsIdempotent` | crates/kirje-store/src/outbox.rs:699-767 | a second pass at the same time changes nothing, not even the log |
| `LedgerFacts.AuditRefinesRows` | crates/kirje-store/src/outbox.rs:194-238 | in every reachable state of a fresh ledger each row's counters agree with its status, and its log ends with its status, digest and time along a path of the automaton, exactly unless it is an expired draft that was discarded afterwards |
| `LedgerFacts.FollowedLogTells` | crates/kirje-store/src/outbox.rs:499-529 | a log that follows its row tells it exactly when its last event is not a late discard |
| `LedgerFacts.CallKeepsAudit` | crates/kirje-store/src/outbox.rs:465-607 | each single call, storing a draft with an expiry included, keeps that agreement |
| `LedgerFacts.PathIsShort` | crates/kirje-store/src/outbox.rs:676-697 | an operation that is not a draft has at most four events |
| `LedgerFacts.CallsFollowRowStep` | crates/kirje-store/src/outbox.rs:532-607 | no call removes a row, changes a terminal one, or changes what a non-draft operation will do; statuses move along the automaton only |
| `LedgerFacts.LogsOnlyGrow` | crates/kirje-store/src/outbox.rs:676-697 | no call removes, reorders or rewrites an event |
| `LedgerFacts.DiscardTellsExactlyPlanned` | crates/kirje-store/src/outbox.rs:499-529 | after a discard the log tells the row exactly when the draft was still planned |
| `LedgerFacts.ExpiredDraftIsDiscarded` | crates/kirje-store/src/outbox.rs:499-529 | a reached ledger in which it was not: the row is expired, its log ends in planned |
| `LedgerEffects.TransitionIsDecided` | crates/kirje-store/src/outbox.rs:532-573 | the outcome of approve and claim as a function of the row before the transaction |
| `LedgerEffects.CallEffect` | crates/kirje-store/src/outbox.rs:194-607 | every call leaves each other row alone up to settling, and writes the called row in one stated way |
| `LedgerReference.CallMeetsReference` | crates/kirje-store/src/outbox.rs:194-607 | for every call, each row and each log afterwards, field by field: a refused call changes nothing, a granted one writes exactly the stated row and event, others only age |
| `LedgerReference.AnswersAreRows` | crates/kirje-store/src/outbox.rs:194-607 | a call answers with the row as written exactly when it is granted, and otherwise with the stated error and the store as it was |
| `LedgerReference.LookAnswers` | crates/kirje-store/src/outbox.rs:240-254 | a look answers with the row as it has aged, with none, or refuses a malformed id |
| `LedgerReference.AgedIsSettled` | crates/kirje-store/src/outbox.rs:699-767 | settling is lapsing at the expiry and abandoning after fifteen minutes, written out |
| `LedgerReference.ClaimsHaveFifteenMinutes` | crates/kirje-store/src/outbox.rs:699-767 | a claimed, unfinished operation is found applying for fifteen minutes and ambiguous from then on |
| `LazyReconcile.LazyEqualsEager` | crates/kirje-store/src/outbox.rs:699-767 | with a non-decreasing clock, extra reconciling passes anywhere leave every approve and claim with exactly the same result |
| `LazyReconcile.SimulatedRuns` | crates/kirje-store/src/outbox.rs:532-573 | the simulation between the lazy and the eager run |
| `LazyReconcile.FinishSeesTheDifference` | crates/kirje-store/src/outbox.rs:575-607 | finishing is where they differ: after a look it succeeds exactly when the apply is not yet stale |
| `LazyReconcile.ClockMustNotGoBack` | crates/kirje-store/src/outbox.rs:703-731 | with a clock that went back, an extra pass denies what the lazy run grants |
| `ImapAdapter.Client.Apply` | crates/kirje-protocol/src/imap.rs:380-495 | the commands sent are those of the request up to the first refusal, and the outcome says truly whether any was sent and all were acknowledged |
| `ImapAdapter.DriveMatchesOutcome` | crates/kirje-protocol/src/imap.rs:420-482 | the step machine sends the same commands as the straight-line code and agrees on success |
| `LedgerRuns.DriveIsARun` | crates/kirje-protocol/src/imap.rs:420-482 | that step machine is the process machine, run for one process: the same commands, acknowledgements and end |
| `MailboxEffects.CommandsDoTheOperation` | crates/kirje-protocol/src/imap.rs:420-482 | on every server holding the message, the acknowledged commands do what the operation is for: a flag is set exactly as asked, a message is in its destination and gone or marked deleted at its source, and nothing else changes |
| `MailboxEffects.CommandsAreScoped` | crates/kirje-protocol/src/imap.rs:380-420 | there are commands exactly for a well-formed request of the session's account at the selected UIDVALIDITY, and each names that message and destination only |
| `Runtime.ApplyMailOperation` | crates/kirje-runtime/src/lib.rs:860-921 | it answers exactly for a ready operation; what was sent is the commands of the approved payload up to the first refusal, and the final row is failed, succeeded or ambiguous accordingly, with its receipt or error |
| `Runtime.ApplySend` | crates/kirje-runtime/src/lib.rs:1006-1026 | it answers exactly for a ready, readable send plan, with the same account of the submission; a ready operation that is no such plan stays applying, any other is left alone |
| `ProcessRuns.ApplyIsARun` | crates/kirje-runtime/src/lib.rs:860-921 | the straight-line call for a mailbox operation is a run of one undisturbed process: the same commands sent and acknowledged, the same final row |
| `ProcessRuns.SendIsARun` | crates/kirje-runtime/src/lib.rs:1006-1026 | and so is the call for a send |
| `PlannedCommands.SentIsWhatWasApproved` | crates/kirje-runtime/src/lib.rs:860-921 | over every interleaving, what goes out for an operation is a prefix of the commands that carry out the payload that was approved for it |
| `Runtime.Submit` | crates/kirje-protocol/src/smtp.rs:70-72 | one submission, acknowledged or not |
| `LedgerRuns.AtMostOnce` | crates/kirje-runtime/src/lib.rs:860-921 | over every interleaving, with crashes and any clocks, an operation is handed to the adapter at most once, only when approved, and with exactly the approved payload and digest |
| `LedgerRuns.CertaintyIsNeverOverstated` | crates/kirje-runtime/src/lib.rs:901-920 | over the same runs failed implies no command, succeeded implies all acknowledged, and after a first command only applying, ambiguous or a fully acknowledged success is possible |
| `LedgerRuns.StepKeepsInv` | crates/kirje-store/src/outbox.rs:532-607 | every step of every process keeps the invariant behind both |
| `LedgerRuns.RefusalIsAmbiguous` | crates/kirje-protocol/src/imap.rs:448-480 | a refused command, the STORE after an acknowledged COPY included, ends ambiguous |
| `LedgerRuns.OtherKindIsStranded` | crates/kirje-store/src/outbox.rs:155-163 | claiming an operation of another kind as a send leaves it applying with nothing invoked |
| `LedgerRuns.AuditHoldsInRuns` | crates/kirje-store/src/outbox.rs:676-697 | the audit log stays exact in these runs |
| `SyncIndex.UidList.SelectSyncUids` | crates/kirje-protocol/src/imap.rs:770-783 | sorting, truncating and popping in place leave the window, and report whether there was more |
| `SyncIndex.WindowIsExtreme` | crates/kirje-protocol/src/imap.rs:770-783 | the window is exactly the smallest, or for a first sync the largest, UIDs found |
| `SyncIndex.Index.ApplySync` | crates/kirje-store/src/lib.rs:145-247 | a batch is stored exactly within the limits: reset, upserts, cursor, state and report; a refused one changes nothing |
| `SyncIndex.AppliedStores` | crates/kirje-store/src/lib.rs:152-170 | a mailbox then holds what it kept and the batch; other mailboxes are untouched |
| `SyncRuns.FetchedBatchIsValid` | crates/kirje-store/src/lib.rs:364-383 | the store never refuses a batch the reader built |
| `SyncRuns.SyncMailboxCall` | crates/kirje-runtime/src/lib.rs:603-630 | the service call over the index object |
| `SyncRuns.RangeIsTailAndLast` | crates/kirje-protocol/src/imap.rs:757-768 | the range n:* is everything from n on, and always the last message |
| `SyncRuns.SyncStores` | crates/kirje-protocol/src/imap.rs:240-323 | one sync stores exactly the answered part of its window on top of what it does not clear, and keeps the cursor the maximum |
| `SyncContent.SyncStoresContent` | crates/kirje-protocol/src/imap.rs:296-311 | under each UID asked for and answered a sync stores that very UID's envelope, and every other row it keeps is as it was |
| `SyncContent.SyncReports` | crates/kirje-store/src/lib.rs:172-246 | what the cursor is, and what one sync reports and records: reset, fetched, more, indexed, total, and whether the first window was all |
| `SyncContent.RowsHoldTheLastAnswer` | crates/kirje-store/src/lib.rs:168-170 | over every history a row holds what the last session of its UIDVALIDITY that was asked for its UID and returned it returned for that UID |
| `SyncContent.EveryRowWasReturned` | crates/kirje-store/src/lib.rs:168-170 | from an empty cache every row was returned by some session for that very UID |
| `SyncRuns.CursorIsMax` | crates/kirje-store/src/lib.rs:172-187 | the stored cursor is exactly the largest stored UID, and every row carries the recorded UIDVALIDITY |
| `SyncRuns.SyncKeepsNoHole` | crates/kirje-protocol/src/imap.rs:240-323 | one sync leaves no hole between the low mark and the cursor, even when the server changes between search and fetch |
| `SyncRuns.NoHoleEver` | crates/kirje-store/src/lib.rs:145-247 | over every history of arrivals, expunges, renumberings and syncs there is no hole |
| `SyncConverges.OneBatch` | crates/kirje-protocol/src/imap.rs:269-282 | one batch takes the smallest UIDs above the cursor and reports more exactly when there are more |
| `SyncConverges.SyncsConverge` | crates/kirje-protocol/src/imap.rs:757-783 | with N UIDs above the cursor exactly ceil(N / limit) syncs are needed, all but the last report more, and all N and nothing else are added |
| `SyncConverges.IdleSync` | crates/kirje-protocol/src/imap.rs:757-768 | with nothing above the cursor it stays, and the indexed UIDs stay exactly when the last message is already indexed, or absent, or the cursor is the largest UID |
| `SyncConverges.OlderMessageIsIndexed` | crates/kirje-protocol/src/imap.rs:757-768 | a reached index and server where they do not stay: an idle sync indexes an older message |
| `SyncConverges.ConvergedIsStable` | crates/kirje-store/src/lib.rs:172-187 | after convergence a further sync changes neither |
| `JsonText.ScanJsonString` | crates/kirje-core/src/input.rs:334-361 | the flag-driven loop finds the string's end, and whether it holds a backslash |
| `JsonText.ScanFindsFirstUnescapedQuote` | crates/kirje-core/src/input.rs:334-361 | that end is the first quote after an even run of backslashes, with no bare control byte before it |
| `JsonText.DecodedJsonStringChars` | crates/kirje-core/src/input.rs:373-430 | the segment loop computes the character count |
| `JsonText.CountIsDecodedLength` | crates/kirje-core/src/input.rs:373-430 | the count is defined exactly when the string decodes, and is its number of scalars, a surrogate pair counting once |
| `JsonText.Base64LengthIsDecodedLength` | crates/kirje-core/src/input.rs:485-514 | the length is defined exactly when the text decodes, and is the decoded length |
| `JsonText.Base64RoundTrip` | crates/kirje-core/src/input.rs:485-514 | the reference encoding decodes back to every byte string |
| `JsonText.CanonicalBase64` | crates/kirje-core/src/input.rs:485-514 | a text that decodes is what encoding gives back exactly when its left-over bits are clear |
| `JsonText.Base64LengthMeetsStrictDecoder` | crates/kirje-core/src/input.rs:485-514 | a decoder that insists on text that encoding gives back accepts exactly the counted texts whose left-over bits are clear, with the same length |
| `JsonText.Base64AcceptsTrailingBits` | crates/kirje-core/src/input.rs:485-514 | a text that is counted as one byte although that byte encodes to another text |
| `Preflight.SkipWhitespace` | crates/kirje-core/src/input.rs:363-371 | the loop stops at the first byte that is not whitespace |
| `Preflight.CheckStringValue` | crates/kirje-core/src/input.rs:297-320 | the checks on one string value under the current name |
| `Preflight.ScanStringToken` | crates/kirje-core/src/input.rs:274-321 | one string token: a member name or a value |
| `Preflight.LexicalPreflight` | crates/kirje-core/src/input.rs:171-332 | the whole loop computes the scan, its depth counter equal to the stack height throughout |
| `PreflightTree.ScanIsWalk` | crates/kirje-core/src/input.rs:171-332 | scanning a value's text has the effect of walking its tree, error for error |
| `PreflightTree.PreflightIsWalk` | crates/kirje-core/src/input.rs:171-332 | on every JSON document, printed with any whitespace, the scan's verdict is the tree walk's |
| `PreflightTree.AcceptedDocumentsAreBounded` | crates/kirje-core/src/input.rs:171-332 | acceptance bounds nesting by 32, arrays by 500, objects by 128, decoded attachments by 8 MiB and recipients by 50 |
| `PreflightTree.MembersMeasure` | crates/kirje-core/src/input.rs:239-262 | the recipient total is exactly the elements of the top-level to, cc and bcc lists |
| `PreflightExact.AcceptedExactly` | crates/kirje-core/src/input.rs:171-332 | a JSON document is accepted if and only if each of its names, containers, lists and strings is within written-out limits and decodes, and the two sums are; a refusal names a fault the document has |
| `PreflightExact.AcceptedTextIsBalanced` | crates/kirje-core/src/input.rs:231-249 | any accepted text, a document or not, has its brackets matched and its strings closed |
| `Preflight.NamedSpells` | crates/kirje-core/src/input.rs:453-476 | field names are told apart by their letters |
| `Encodings.WrittenStringsDecode` | crates/kirje-core/src/input.rs:373-430 | however each character is written, plainly or escaped, in one unit or two, decoding gives back the characters meant |
| `Like.EscapeIsPerCharacter` | crates/kirje-store/src/lib.rs:508-513 | the three replacements escape each special character once |
| `Like.PatternMeansContains` | crates/kirje-store/src/lib.rs:496-513 | the pattern matches a text exactly when the text contains the value, up to ASCII case, whatever wildcards it holds |
| `Like.Query.AddLikeFilter` | crates/kirje-store/src/lib.rs:496-506 | a blank value adds nothing; any other adds one clause and one bound pattern with that meaning |
| `BoundedRead.ReadStreamBounded` | crates/kirje-local-io/src/lib.rs:217-253 | the loop over any reader computes the specified outcome and the requests made |
| `BoundedRead.BoundedReadIsExact` | crates/kirje-local-io/src/lib.rs:217-253 | whatever the chunks and interruptions, the whole stream is returned exactly when it is shorter than the probe limit |
| `BoundedRead.ErrorsAreReported` | crates/kirje-local-io/src/lib.rs:239-251 | a read error is never passed over: the outcome is a failure exactly when some request was answered by one, which is then the last |
| `BoundedRead.ProbeIsLimitPlusOne` | crates/kirje-local-io/src/lib.rs:221-221 | shorter than the probe limit means within the limit, except for a stream of exactly the largest machine size under that limit |
| `BoundedRead.RequestsStayWithinProbe` | crates/kirje-local-io/src/lib.rs:233-238 | no request reaches past limit + 1 bytes of the stream |
| `BoundedRead.RequestAccounting` | crates/kirje-local-io/src/lib.rs:233-251 | for every stream, reader and limit the sizes requested sum to the bytes delivered and what each request fell short by, so they stay within limit + 1 exactly when the shortfalls fit beside those bytes |
| `BoundedRead.SmallLimitTotal` | crates/kirje-local-io/src/lib.rs:233-251 | for limits below the scratch buffer the total stays within limit + 1 exactly when one request is made, and that is decided by the first reply |
| `BoundedRead.RequestsCanSumPastLimit` | crates/kirje-local-io/src/lib.rs:239-251 | one interruption already takes the total past limit + 1 |
| `ConfigFile.AddedIsGood` | crates/kirje-runtime/src/lib.rs:257-283 | adding gives a sorted document with unique ids within 100 that holds exactly the old accounts and the new one |
| `ConfigFile.AddedExactly` | crates/kirje-runtime/src/lib.rs:257-283 | an account is refused exactly when its id is taken, or else when there are a hundred |
| `ConfigFile.IdLeIsLexicographic` | crates/kirje-runtime/src/lib.rs:257-283 | the order of ids is lexicographic |
| `ConfigFile.Directory.VerifyExpectation` | crates/kirje-local-io/src/lib.rs:373-393 | the expectation check, for all three kinds |
| `ConfigFile.Directory.ReplacePrivate` | crates/kirje-local-io/src/lib.rs:273-302 | left to itself it leaves the file alone or wholly replaces it under a new identity, and no temporary stays; a file put in place before the second check is not overwritten, one put in place after it is |
| `ConfigFile.Directory.Commit` | crates/kirje-local-io/src/lib.rs:284-296 | writing, checking again, renaming: the exact file after every failure and every intruder, before or after the second check |
| `ConfigFile.Directory.Create` | crates/kirje-runtime/src/lib.rs:257-283 | load, add, sort, save: an undisturbed creation saves exactly the added document, and success means the account is in a good one |
| `ConfigWriters.NoLostCreations` | crates/kirje-runtime/src/lib.rs:147-283 | under any interleaving and any failures every account whose creation succeeded is in the file, which stays sorted, unique and within 100 |
| `ConfigWriters.OnlyCreationsAreAdded` | crates/kirje-runtime/src/lib.rs:147-283 | nothing the file held is lost, and nothing is in it that it did not hold and nobody asked to create |
| `ConfigWriters.AtMostOneWinner` | crates/kirje-local-io/src/lib.rs:273-302 | among writers with one expectation at most one ever replaces the file |
| `ConfigWriters.RenameKeepsInv` | crates/kirje-local-io/src/lib.rs:291-298 | what a rename replaces is exactly what its process had loaded |
| `ConfigWriters.ReusedIdentityLosesAccounts` | crates/kirje-local-io/src/lib.rs:57-66 | a run of the same writers in which a file identity is reused, all creations return Ok, and an account is gone |

## Left out

- The authority store, whose code is not part of this model.
- SQLite itself, WAL, file permissions, fsync, key rings, TLS, IMAP and SMTP wire handling, MIME building and HTML sanitising: a transaction is one atomic step, the server a set of UIDs and a log of commands.
- SHA-256 and Ed25519: the hash is a parameter and signatures are opaque bytes.
- The command line, MCP wiring, schema reports, provider data and discovery.
- The display form of an authorization target: it is derived from the target and never parsed.
- Failed memory reservations, which the source reports as a resource limit.
- The serialised text of proofs (Base64url, JSON) and its version check; only the canonical transcript is modelled.
- Rows migrated from the first schema, whose counters are copied as they stand: ledger invariants are stated for fresh stores.
- The selection, order and page size of listed operations: a listing changes the store as a look does (`LedgerRuns.Local`).
- The limit of 100 active drafts, which the source checks only among the newest 100 records and not atomically.
- Timestamps are integers at the microsecond grid of their stored text; years that RFC 3339 cannot write are not modelled.
- Runtime.ApplyMailOperation: one process without interference, and a receipt that can always be written; LedgerRuns covers interleaving, crashes and an unwritable receipt.
- Runtime.ApplySend: likewise without interference.
- ImapAdapter.Client.Apply: the checks before the first command are one guard, since they all report that nothing was started.
- SyncRuns.NoHoleEver: syncs of one mailbox do not overlap; for overlapping ones the claim does not hold.
- Whether the first window of a mailbox covered all of it (`initial_window_complete`): what each sync makes of the flag is stated (`SyncContent.SyncReports`), and nothing of it over a history.
- PreflightTree.AcceptedDocumentsAreBounded: the attachment bound counts strings that are members named `content_base64`; the code also counts strings that merely follow such a name, which `PreflightExact.AcceptedExactly` includes.
- PreflightExact.AcceptedExactly: for texts that are no JSON documents only their brackets and strings are spoken of; the deserialiser that follows refuses them.
- The limits on pattern length and NUL bytes inside SQLite, and the final ordering of search results.
- ConfigWriters.NoLostCreations: assumes that file identities are not reused, which `ConfigWriters.ReusedIdentityLosesAccounts` shows to be needed, and that all writers take the lock.
- The text form of the configuration file and its 1 MiB limit; a load that fails for these reasons is a process that gives up.
- Account ids are compared character by character; for the ASCII ids that validation admits this is the byte order of the source.
- Draft composition helpers, bounded untrusted text, capability records and single-branch field validators: easy members.
