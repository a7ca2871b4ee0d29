# The Accountant: a Dafny model of its hard core

The Accountant (Computantis) is a ledger kept as a directed acyclic graph of vertices. Each vertex
carries one transaction and names two parents. Nodes grow the graph, reject leaves that fail
validation, move old vertices to storage, copy the graph to new nodes and flood new vertices and
transactions to each other. Amounts are pairs of 64-bit words, addresses are Base58 texts with a
checksum, and transactions waiting for their receiver sit in caches.

The project models five parts and proves what they promise.

- **Base58 and addresses** (`Positional`, `Base58`, `Base58Codec`, `Address`). The in-place C loops
  are methods over arrays, proved against positional numbers. Encoding and decoding are inverse, the
  digit buffer is always big enough, and the decoder accepts exactly the texts it should.
- **Melange amounts** (`Spice`, `Accounts`, `MelangeText`). Wrapping 64-bit arithmetic is proved
  against one natural number per amount. Every run of transfers conserves the total, with the exact
  exception, and the printed decimal is the one shortest text of the amount.
- **The accounting book** (`Dag`, `Ledger`, `Supply`, `Truncation`, `Precalculate`, `Audit`,
  `Solvency`, `Sync`, `Accountant`, `Witnesses`). `Ledger` is a state machine of genesis, add, drop and truncate
  steps; `Accountant.AccountingBook` is the mutable book, and each of its methods is proved to take
  exactly such steps. On top of that: the structural invariant over every run, conservation of the
  supply, the effect of truncation on balances, what the confirmation of a transfer is worth, and the
  copy of a book to another node.
- **Gossip** (`Gossip`). The handlers are methods; a network of them is a state machine over any
  topology and any delivery order, with a memory that may forget at any time. Flooding ends, carries the
  item over each connection at most once while the hash is remembered, and reaches everyone it can.
- **Caches of awaited transactions** (`LocalCache`, `HexList`, `Hippocampus`). Both caches are proved
  to agree with the plain collection of live transactions.

`Basics` and `Sums` hold shared definitions.

## Where the code differs from what it promises

The model follows the code. Each point names the lemma or contract with its exact condition and, where the
condition does not show it outright, the one with an example.

- The address checksum is compared with a string comparison, which stops at a zero byte. Some wrong
  checksum is accepted exactly when the true one has a zero byte before its last byte
  (`Address.AlteredChecksum`, `Address.CorruptedAddressAccepted`).
- A key has more than one address: any number of ones before the text only changes the length reported
  (`Address.LeadingOnesAccepted`).
- The overflow guard of amounts compares strictly and lets one boundary sum wrap to zero
  (`Spice.SlipsThrough`, `Accounts.RunConserves`; example `Accounts.SlipLosesEverything`).
- `New` carries only once and can wrap (`Spice.New`); `String` prints no fraction for an amount that
  is not normal (`MelangeText.TextLosesNothing`).
- The funds check compares whole units first, and sums carry only once. For amounts in normal form that is a
  comparison of values; in general it is exactly when no side makes up for missing units in parts
  (`Spice.ComparisonAgrees`, `Spice.AddedValue`). A node accepts any two words from others, so a payment of
  more than twenty-six units can pass on ten (example `Witnesses.PaidInParts`).
- The funds check adds up all an issuer ever received before it takes what was spent. It passes exactly when
  both sums fit a record and the balance is not negative, for normal amounts and sums that miss the gap in
  the guard (`Audit.PaysMeans`). So a solvent issuer whose money came back to it often enough can never pay
  again (`Solvency.OverflowLasts`; example `Witnesses.SolventButRefused`).
- Validating leaves does not prevent double spending. Two payments that do not see each other can each be
  covered and both be confirmed by a vertex built on both (example `Witnesses.ConfirmedTwice`). What the
  joining vertex sees is given by `Solvency.BalanceAtMerge`; an issuer whose spending vertices form a
  chain is nowhere overspent (`Solvency.ChainedSpendingIsPaid`).
- Truncation changes the balance of an address that paid itself in the cut, or that spent more than
  it received there, because both map entries are read before either is written and a failed drain
  is ignored (`Truncation.TruncationKeepsBalance`; examples `Witnesses.SelfPaymentCountsTwice` and, for the
  genesis issuer, `Truncation.GenesisIssuerBalanceChanges`).
- Truncation turns every vertex whose parents were all cut into a root, the cut point among them, and the
  funds of a root are not checked: such a leaf passes whatever it spends
  (`Truncation.CutMakesRoots`, `Accountant.CutLeafStands`).
- `LoadDag` skips the parents of a vertex whose left parent is the zero hash, so a received book can
  break the invariant (`Sync.LoadedInv`; example `Witnesses.HalfParentLoads`).
- `LoadDag` takes the genesis address from whichever root it meets first, so one stream can give books that
  guard different wallets; the book is determined exactly when all roots name one issuer
  (`Sync.LoadedOnce`; example `Witnesses.GenesisAddressOpen`).
- A book with an empty genesis transaction cannot be loaded, although `CreateGenesis` accepts any amount
  (`Sync.RootedLoadable`).
- A failed load leaves vertices, index entries and edges behind, exactly those up to the refusal. Once it has
  left an edge no later load succeeds (`Sync.Load`).
- The search for leaves fails with the error of the leaf validated last: never when it found two, and when it
  found one exactly if another leaf came last (`Accountant.AccountingBook.GetValidLeaves`; example
  `Witnesses.FailsDespiteValidLeaf`).
- `CreateLeaf` reads a nil leaf exactly when nothing bars the transaction and the graph is empty
  (`Accountant.AccountingBook.CreateLeaf`). Rejected leaves can empty the graph, because their weight
  counts against the leaves below them (example `Witnesses.GraphRunsEmpty`).
- An address that two live transactions ever named at one time keeps a comma in its list; when nothing names
  it any more the answer is an empty list instead of not-found
  (`Hippocampus.Memory.ReadTransactions`; example `Hippocampus.CommaLeftBehind`).
- Vertices waiting for their parents are said to be replayed by creation time, but the comparison looks at one
  vertex twice, so they are replayed in the order they came (`Accountant.AccountingBook.Replay`).
- A transfer within one record, of normal amounts, changes nothing (`Spice.Transfer`).

## Model

| member | source | states |
|---|---|---|
| Base58.TableInverse | src_c/client-node/address/base58.c:26-35 | the digit table read by the decoder is the inverse of the alphabet written by the encoder, and every other character is outside it |
| Base58.AlphabetAscends | src_c/client-node/address/base58.c:26-35 | the alphabet is the digits without the zero and the letters without I, O and l, in ascending order: these fifty-eight characters and no others, so both tables are fixed |
| Base58.RoundTrip | src_c/client-node/address/base58.c:42-116 | for every byte string, decoding its text at the original size succeeds, gives back every byte including leading zeros, and reports the original length |
| Base58.MoreOnes | src_c/client-node/address/base58.c:63-65 | ones before a text add to the size reported and change nothing else |
| Base58.EncodeInjective | src_c/client-node/address/base58.c:148-192 | two different byte strings never have the same text |
| Base58.DigitsOfEncoded | src_c/client-node/address/base58.c:176-188 | a text denotes in base 58 the number its bytes denote in base 256, with as many leading ones as leading zero bytes |
| Base58.CapacityBound | src_c/client-node/address/base58.c:158 | for every n, n bytes fit n*138/100+1 base-58 digits, and all but the last byte fit with one digit to spare |
| Base58Codec.CarryOn | src_c/client-node/address/base58.c:166-171 | one position of the in-place multiplication keeps the loop's positional equation and a carry below the multiplier |
| Base58Codec.CarryStops | src_c/client-node/address/base58.c:166-173 | stopping at the high-water mark without a carry has multiplied the whole number: no non-zero digit was skipped |
| Base58Codec.CarryFits | src_c/client-node/address/base58.c:76-84 | a carry is left past the first position exactly when the number does not fit the buffer |
| Base58Codec.AbsorbByte | src_c/client-node/address/base58.c:164-173 | the inner encoding loop turns the number v into 256v plus the byte, and everything up to the new high-water mark is zero |
| Base58Codec.Room | src_c/client-node/address/base58.c:158-163 | before each byte the first digit of the buffer is free and the next prefix still fits, so the loop never stops with a carry |
| Base58Codec.FillDigits | src_c/client-node/address/base58.c:158-174 | the filled buffer holds digits below 58 denoting the bytes after the leading zeros |
| Base58Codec.CountLeading | src_c/client-node/address/base58.c:155-156 | the counting loop finds the length of the leading run |
| Base58Codec.SkipZeros | src_c/client-node/address/base58.c:176 | the loop stops at the first non-zero digit or at the end |
| Base58Codec.Significant | src_c/client-node/address/base58.c:176 | what follows the skipped zeros are exactly the significant digits of the whole number |
| Base58Codec.WriteText | src_c/client-node/address/base58.c:184-188 | the output is the ones, the letters and a terminating zero, and nothing behind it changes |
| Base58Codec.B58Enc | src_c/client-node/address/base58.c:148-192 | succeeds exactly when text and terminator fit the output, then writes exactly them; otherwise writes nothing; the size needed is reported in both cases |
| Base58Codec.FitsBytes | src_c/client-node/address/base58.c:52-53 | limbs denote a number below 256^binsz exactly when the spare bytes of a partial top limb are zero |
| Base58Codec.SpareBytesUsed | src_c/client-node/address/base58.c:85-87 | the mask test sees exactly a top limb of 256^bytesleft or more |
| Base58Codec.ShiftIn | src_c/client-node/address/base58.c:76-81 | the limb loop multiplies by 58, adds the digit and returns what does not fit |
| Base58Codec.DigitAdded | src_c/client-node/address/base58.c:76-87 | carry and mask test together notice exactly the numbers of 256^binsz or more |
| Base58Codec.NoLimbs | src_c/client-node/address/base58.c:76-84 | without limbs every digit but a leading one is left over as carry, so an empty output accepts ones only |
| Base58Codec.ReadDigits | src_c/client-node/address/base58.c:56-88 | the digit loop succeeds exactly on the texts the specification accepts, with limbs denoting the number and the leading ones counted |
| Base58Codec.WriteLimb | src_c/client-node/address/base58.c:92-102 | a limb is written as its low bytes, most significant first, in its place only |
| Base58Codec.LimbAppended | src_c/client-node/address/base58.c:98-103 | appending the four bytes of a limb keeps bytes and limbs denoting the same number |
| Base58Codec.WriteBytes | src_c/client-node/address/base58.c:90-103 | the limbs come out as the number in exactly binsz big-endian bytes |
| Base58Codec.Strlen | src_c/client-node/address/base58.c:56-57 | the first terminating zero |
| Base58Codec.TextOf | src_c/client-node/address/base58.c:56-57 | a size of zero means the text up to the first zero byte, any other size that many bytes |
| Base58Codec.CanonicalSize | src_c/client-node/address/base58.c:105-113 | the size reported counts the significant bytes of the number |
| Base58Codec.B58ToBin | src_c/client-node/address/base58.c:42-116 | accepts exactly the texts whose characters are all digits and whose number is below 256^binsz, also for an empty output; writes that number big-endian and reports its canonical size; a refusal writes nothing |
| Address.EncodedLength | src_c/client-node/address/address.c:78-91 | a text is never longer than the digit buffer, so 56 bytes always hold an address |
| Address.EncodeAddress | src_c/client-node/address/address.c:51-94 | a key of the wrong length ends the program; otherwise the address buffer holds the text of version, key and the first four bytes of their double hash, with its terminator |
| Address.DecodeAddress | src_c/client-node/address/address.c:96-157 | the in-place decoder answers what the specification says of the string |
| Address.DecodeOfNumber | src_c/client-node/address/address.c:96-157 | the program ends exactly on a text with a foreign character or a number of more than 37 bytes; for any other text the key among its 37 bytes comes back exactly when the version agrees and the first four bytes of the double hash compare equal, with the length the text claims |
| Address.DecodeOfBytes | src_c/client-node/address/address.c:96-157 | for any 37 bytes written as text: the key comes back exactly when the version agrees and the checksums compare equal |
| Address.AddressRoundTrip | src_c/client-node/address/address.c:51-157 | for every hash function, version and 32-byte key, decoding the encoded address gives the key, and every other version is refused |
| Address.LeadingOnesAccepted | src_c/client-node/address/address.c:96-157 | for every hash function, version, key and number of ones before its address, the key comes back, with that many bytes more reported |
| Address.StoredText | src_c/client-node/address/address.c:86-100 | the string found in the encoder's buffer is the text written there |
| Address.StrnMeaning | src_c/client-node/address/address.c:147 | the comparison holds exactly for equal bytes or bytes equal up to and including a zero byte |
| Address.AlteredChecksum | src_c/client-node/address/address.c:147-154 | an altered checksum is accepted exactly when the true one has a zero byte and the two agree up to and including it |
| Address.CorruptedAddressAccepted | src_c/client-node/address/address.c:147-154 | for every hash function, version and key, some wrong checksum is accepted exactly when the true one has a zero byte before its last byte |
| Spice.New | src/spice/spice.go:61-70 | normal exactly when the parts are below two units, and worth what was given exactly when the whole units do not wrap; from one unit of parts on, exactly one unit is carried |
| Spice.WordsWrap | src/spice/spice.go:83-169 | words are added and subtracted modulo 2^64 |
| Spice.Empty | src/spice/spice.go:116-118 | an amount is empty exactly when it is worth nothing |
| Spice.PlusByWords | src/spice/spice.go:83-108 | the word arithmetic with carry is addition of values, refused exactly when not representable, except the one pair the guard lets through |
| Spice.DifferenceByWords | src/spice/spice.go:121-169 | comparing words is comparing values, and subtracting with borrow is subtracting values |
| Spice.AddedIsPlus | src/spice/spice.go:83-108 | for normal amounts the sum of words is the sum of values |
| Spice.AddedValue | src/spice/spice.go:83-108 | for any words the guard accepts, the sum is worth the sum exactly when the parts do not wrap and no carry meets the greatest unit |
| Spice.AcceptsMeans | src/spice/spice.go:84-97 | the guard by plain sums of the fields: whole units below the greatest word, or at it with parts of at most one unit together, or with so many parts that the guard's own difference wraps |
| Spice.TakenValue | src/spice/spice.go:138-166 | a difference is worth the difference, and 2^64 parts more when the parts taken exceed a borrowed unit; a unit is borrowed exactly when the parts do not suffice |
| Spice.ComparisonAgrees | src/spice/spice.go:121-169 | comparing words agrees with comparing values exactly when the amount with fewer units does not make up for them in parts; always for normal amounts |
| Spice.MoveByWords | src/spice/spice.go:121-169 | for normal amounts the words moved are the values moved |
| Spice.Melange.Supply | src/spice/spice.go:83-108 | for any words, succeeds exactly when the guard accepts them and then holds their sum with one carry; for normal amounts that is exactly when the sum is representable or slips through; a failure changes nothing |
| Spice.Melange.Drain | src/spice/spice.go:111-113 | a transfer out of this record, for any words; a failure changes neither record |
| Spice.Melange.CopyFrom | src/spice/spice.go:202-205 | both words are taken over |
| Spice.Transfer | src/spice/spice.go:121-169 | between two records, for any words, succeeds exactly when the amount's words are at most the payer's and the receiver's guard accepts them, reports which of the two failed, and moves the words with one borrow and one carry; for normal amounts that is exactly the amount by value; a failure changes nothing, nor does a transfer of a normal amount within one record |
| Accounts.MoveTotals | src/spice/spice.go:121-169 | a carried-out move keeps the value of the pair, except that slipping through loses exactly the capacity of a record; a refusal has a reason |
| Accounts.OneOrder | src/spice/spice.go:121-169 | one order among any number of accounts changes the total only by slipping through |
| Accounts.RunConserves | src/spice/spice.go:121-169 | over every sequence of orders value is never created, and the total is preserved exactly when no order slips through |
| Accounts.SmallSupplyConserved | src/spice/spice.go:121-169 | a total that one record could hold is preserved by every sequence of orders |
| Accounts.SlipLosesEverything | src/spice/spice.go:136-156 | two accounts and one order after which a full record is gone |
| MelangeText.String | src/spice/spice.go:172-193 | for every amount the loop writes the shortest text that denotes the whole units and the parts, or no parts when the amount is not normal |
| MelangeText.DecimalCorrect | src/spice/spice.go:173 | a printed number reads back as itself, without leading zeros |
| MelangeText.FractionDenotes | src/spice/spice.go:173-190 | trimmed and padded again, the fraction still denotes the parts in eighteen places |
| MelangeText.FractionTrimmed | src/spice/spice.go:174-190 | a fraction never ends in a zero, unless it is a lone zero, which it is exactly for no parts and for parts of a unit or more |
| MelangeText.TextShortest | src/spice/spice.go:172-193 | no zero before the whole units and none after the fraction, but for a lone one |
| MelangeText.DenotesOnce | src/spice/spice.go:172-193 | a text denotes at most one pair of fields |
| MelangeText.TextLosesNothing | src/spice/spice.go:172-193 | the text denotes the whole units always and the parts exactly when the amount is normal |
| MelangeText.TextOnly | src/spice/spice.go:172-193 | of a normal amount exactly one text is shortest and denotes it, the printed one |
| MelangeText.TextInjective | src/spice/spice.go:172-193 | two normal amounts are never printed alike |
| Dag.AncestorsLeast | src/accountant/accountant.go:258 | the ancestors of a vertex are the least set closed under parents |
| Dag.AncestorIffPath | src/accountant/accountant.go:258 | a vertex is an ancestor exactly when a path leads from it |
| Dag.SinkIrrelevant | src/accountant/accountant.go:480 | adding or deleting edges into a childless vertex changes nobody else's ancestors |
| Dag.EdgeKeepsAcyclic | src/accountant/accountant.go:608 | an edge keeps the graph acyclic exactly when it does not end at or above its source |
| Dag.AncestorsAfterCut | src/accountant/accountant.go:245-251 | deleting a past-closed set leaves every other vertex exactly the rest of its ancestors |
| Ledger.GenesisKeepsInv | src/accountant/accountant.go:627-660 | adding a genesis vertex keeps the invariant: acyclic, edges exactly the parent references, parents of graph and of stored vertices held, graph and storage disjoint, index one-to-one |
| Ledger.EmptyMeans | src/transaction/transaction.go:152-164 | a transaction is empty exactly when it has no data and its amount is worth nothing |
| Ledger.AttachKeepsInv | src/accountant/accountant.go:587-623 | adding a checked vertex keeps the invariant |
| Ledger.DropKeepsInv | src/accountant/accountant.go:480-481 | rejecting a leaf with its index entry keeps the invariant |
| Ledger.HeldTruncated | src/accountant/accountant.go:211-251 | truncation moves vertices and forgets none |
| Ledger.TruncateKeepsInv | src/accountant/accountant.go:211-251 | truncation at any vertex keeps the invariant; the vertices moved take their parents with them into storage |
| Ledger.StepKeepsInv | src/accountant/accountant.go:465-660 | every step keeps the invariant |
| Ledger.RunKeepsInv | src/accountant/accountant.go:465-946 | every run of steps keeps the invariant |
| Ledger.OneVertexPerTransaction | src/accountant/storage.go:95-108 | under the invariant no transaction sits in two vertices, in the graph or in storage |
| Ledger.EveryParentHeld | src/accountant/accountant.go:540-624 | under the invariant every parent of a held vertex, in the graph or in storage, is held, or the vertex has none |
| Ledger.UnknownHasNoChildren | src/accountant/accountant.go:587-604 | a hash not held is nobody's parent, so a new vertex closes no cycle |
| Supply.AttachKeepsPast | src/accountant/accountant.go:595-617 | a new leaf changes nobody else's past |
| Supply.AttachedPast | src/accountant/accountant.go:595-617 | the past of a new leaf is its parents and their pasts |
| Supply.DropKeepsPast | src/accountant/accountant.go:480 | a rejected leaf changes nobody else's past |
| Supply.GrowthKeepsRooted | src/accountant/accountant.go:510-512 | over every run of adds and drops from genesis, the genesis vertex is below every other one and no other vertex spends from its wallet |
| Supply.FlowTotal | src/accountant/founds.go:9-27 | one vertex moves its amount between the addresses it names and creates none |
| Supply.NetTotal | src/accountant/founds.go:9-27 | over any set of vertices the net flows of all other addresses sum to the genesis amount less what went back to its issuer |
| Supply.SupplyConserved | src/accountant/accountant.go:864-866 | seen from any vertex, the signed balances of all addresses but the genesis issuer sum to the genesis amount less what the issuer's wallet received |
| Supply.RunConservesSupply | src/accountant/accountant.go:510-512 | the same for every book reachable from a genesis vertex by adds and drops |
| Truncation.PastAfterTruncation | src/accountant/accountant.go:227-251 | the past of a remaining vertex is its old past without the strict ancestors of the cut point |
| Truncation.FlowAfterTruncation | src/accountant/accountant.go:211-251 | flows over the old past of any remaining vertex are the flows of the part of the cut it saw plus those over its new past |
| Truncation.BalanceFromAnyLeaf | src/accountant/precalculate.go:33-64 | seen from any remaining vertex, what is kept of the whole cut takes the place of the funds stored before and of the flows in the part of the cut it saw |
| Truncation.BalanceAfterTruncation | src/accountant/precalculate.go:33-64 | the exact change of any balance seen from a leaf above the whole cut: what the address paid itself there, or all it spent there if that exceeds what it received |
| Truncation.TruncationKeepsBalance | src/accountant/precalculate.go:33-64 | the balance is unchanged exactly when the address paid itself nothing in the cut and had received there at least what it spent |
| Truncation.LeafIsNotCut | src/accountant/accountant.go:180-196 | no leaf is ever cut off |
| Truncation.CutMakesRoots | src/accountant/accountant.go:245-251 | a remaining vertex is a root exactly when all its parents were cut; the cut point is one |
| Truncation.SelfPaymentChangesBalance | src/accountant/precalculate.go:47-54 | any non-empty payment to oneself in the cut changes the payer's balance |
| Truncation.GenesisIssuerBalanceChanges | src/accountant/precalculate.go:56-64 | in every book grown from genesis, truncation changes the balance of the genesis issuer unless that wallet had got back all it issued |
| Precalculate.FundsMemMap.constructor | src/accountant/precalculate.go:19-21 | no entries |
| Precalculate.FundsMemMap.Set | src/accountant/precalculate.go:23-31 | an address starts with its stored funds as received and nothing spent |
| Precalculate.FundsMemMap.UpdateFounds | src/accountant/precalculate.go:47-54 | the receiver's entry gains what was received and, when the two differ, the issuer's gains what was spent; all other entries stay, and a payment to oneself loses its outgoing side |
| Precalculate.FundsMemMap.NextVertex | src/accountant/precalculate.go:33-45 | for every address, an entry that denotes its received and spent totals denotes them with this vertex counted, whatever other addresses' amounts look like |
| Precalculate.FundsMemMap.SaveToStorage | src/accountant/precalculate.go:56-64 | each entry is stored as received less spent, or as all received when that is less; other stored funds stay |
| Precalculate.Drained | src/accountant/precalculate.go:56-60 | draining with the error ignored leaves the difference, or everything when it does not suffice |
| Precalculate.FromStorage | src/accountant/storage.go:175-211 | the walk over stored funds fills exactly one entry for each |
| Precalculate.CountFounds | src/accountant/accountant.go:211-229 | after the walk the entry of every address that can be counted denotes what it received, stored funds included, and spent in the cut |
| Precalculate.SavedIsSettled | src/accountant/precalculate.go:47-64 | counted and saved, the stored funds of an address are what the truncation theorems speak of, in normal form |
| Precalculate.CutOfCountable | src/accountant/accountant.go:211-229 | what can be counted from a leaf can be counted over any part of its past |
| Precalculate.CountableAfterTruncation | src/accountant/accountant.go:211-251 | an address that could be counted from a leaf above the cut still can be afterwards, so that truncations compose |
| Audit.AncestorsWalker | src/accountant/accountant.go:258 | the library's walk: any order, repetitions allowed, its set exactly the strict ancestors |
| Audit.VisitAncestors | src/accountant/accountant.go:256-300 | with its visited map the loop performs on every strict ancestor exactly once |
| Audit.PourFunds | src/accountant/founds.go:9-27 | for any words, succeeds exactly when both additions the vertex asks for are accepted, and then both records hold them; a vertex that does not concern the address changes nothing |
| Audit.CheckHasSufficientFunds | src/accountant/founds.go:29-38 | passes exactly when the words of the outflow are at most those of the inflow; for normal amounts exactly when the outflow does not exceed the inflow |
| Audit.PouredHolds | src/accountant/accountant.go:989-1037 | vertices of normal amounts poured one after the other hold their sum, or nothing exactly when it does not fit a record, while no sum on the way is exactly the limit |
| Audit.TalliedHolds | src/accountant/accountant.go:989-1037 | so does each side of a walk over a past, whatever its order |
| Audit.PaysMeans | src/accountant/accountant.go:342-413 | for normal amounts outside the gap in the guard, the funds check passes exactly when both sums fit a record and stored funds plus inflow cover the outflow, over the leaf and its whole past |
| Audit.PayingMeans | src/accountant/accountant.go:342-413 | and then no order of the walk makes a difference |
| Audit.WordBalanceMeans | src/accountant/accountant.go:989-1051 | under the same condition the balance is computed exactly when both sums fit and it is not negative, and is then exact |
| Audit.CountableIsClear | src/accountant/accountant.go:342-413 | sums that fit a record never meet the gap in the guard |
| Audit.AllParentsVisited | src/accountant/accountant.go:381-392 | the verification of parents met on the walk covers all parents in the graph |
| Audit.CheckFunds | src/accountant/accountant.go:342-413 | for any words, passes exactly when the parents' signatures hold and the words its walk adds up pay; for normal amounts outside the gap in the guard exactly when moreover both sums fit and cover |
| Audit.SettlingMeans | src/accountant/accountant.go:1039-1049 | stored funds plus inflow less outflow, refused exactly when the sum does not fit or the result is negative |
| Audit.BalanceFrom | src/accountant/accountant.go:989-1051 | for any words, what the words of its walk give; for normal amounts outside the gap in the guard the exact balance, refused exactly when a sum does not fit or it is negative |
| Audit.StoredNormal | src/accountant/storage.go:146-173 | stored funds read as an amount are worth what is stored, nothing for an unknown address |
| Solvency.SamePast | src/accountant/accountant.go:342-413 | balances, and whether they can be counted, depend only on the past |
| Solvency.SamePay | src/accountant/accountant.go:342-413 | so does the funds check, for any words |
| Solvency.CoveredMeans | src/accountant/accountant.go:342-413 | a covered transfer of an untrusted node, for normal amounts outside the gap in the guard, was paid for by its own past |
| Solvency.DropKeepsSolvent | src/accountant/accountant.go:478-487 | rejecting a leaf keeps every confirmed transfer covered |
| Solvency.AttachKeepsSolvent | src/accountant/accountant.go:576-583 | building on covered vertices keeps every confirmed transfer covered |
| Solvency.RunStaysSolvent | src/accountant/accountant.go:465-946 | over every run of vetted adds and drops, every vertex that has a child is a root, no transfer, signed by a trusted node, or passes the funds check over its own past; no kind of amount is exempt |
| Solvency.GenesisIsSolvent | src/accountant/accountant.go:627-660 | a book that holds only a genesis vertex is solvent |
| Solvency.BalanceBetween | src/accountant/accountant.go:342-413 | between two vertices of one past the balance changes by exactly the flows the earlier one does not see |
| Solvency.NoUnseenSpending | src/accountant/accountant.go:342-413 | if an earlier vertex sees all spending of an address, its balance does not fall from there on |
| Solvency.OverflowLasts | src/accountant/accountant.go:342-413 | an issuer whose sums do not fit a record from one vertex passes the funds check from no vertex above it |
| Solvency.ChainedSpendingIsPaid | src/accountant/accountant.go:342-413 | an issuer whose covered spending vertices form a chain, each seeing the one before, is overspent from no vertex |
| Solvency.BalanceAtMerge | src/accountant/accountant.go:587-617 | a vertex that joins two pasts sees the sum of its parents' balances less what both see, and its own transfer; an address is overspent there exactly when that is negative |
| Witnesses.SolventButRefused | src/accountant/accountant.go:342-413 | a run after which an issuer has nearly all there is and no walk lets it pay one unit |
| Witnesses.PaidInParts | src/accountant/founds.go:29-38 | a payment of more than twenty-six units that passes every walk on ten units received |
| Witnesses.ConfirmedTwice | src/accountant/accountant.go:576-583 | a run of allowed steps in which one issuer spends its funds twice and both payments are confirmed |
| Witnesses.DataIsAttached | src/accountant/accountant.go:950-964 | a run: a new node starts a book and takes any vertex with data and no spice on top of the genesis vertex, whoever issued it |
| Sync.BelowSomeLeaf | src/accountant/accountant.go:777-797 | every vertex is a leaf or an ancestor of one, so streaming from the leaves misses none |
| Sync.StreamNew | src/accountant/accountant.go:800-828 | of the next leaf's ancestors exactly those not yet sent are sent |
| Sync.StreamDAG | src/accountant/accountant.go:770-835 | each vertex of the graph is emitted exactly once and nothing else is |
| Sync.LoadVertices | src/accountant/accountant.go:675-689 | succeeds exactly when no vertex and no transaction repeats or is known already; then vertices and index grow by exactly the stream, otherwise by the vertices before the one refused, and by its index entry if only its hash was known |
| Sync.LoadableMeans | src/accountant/accountant.go:691-731 | by the fields: every vertex has data or spice, at most one was issued by its signer, both parents are there where a left one is named, and there is no circle |
| Sync.Connect | src/accountant/accountant.go:715-726 | both edges are added, or refused exactly when one is known, a parent is missing or a cycle would close; a refused second edge leaves the first |
| Sync.LoadEdges | src/accountant/accountant.go:691-731 | whatever the order, succeeds exactly when there was no edge yet, no transaction is empty, at most one vertex was issued by its signer, all parents are there and the result is acyclic |
| Sync.LoadedHasRoot | src/accountant/accountant.go:733-755 | there is always a root to take the genesis address from, unless nothing was received |
| Sync.Load | src/accountant/accountant.go:663-761 | on a fresh book or on what failed loads left, succeeds exactly when there is no edge yet and the stream is new and loadable; then vertices, edges and index are determined and the genesis address is that of some root; a failure leaves a book that is not loaded, with exactly the vertices and index entries up to the one refused, or all of them and more edges; nothing else in it changes |
| Sync.LoadedFresh | src/accountant/accountant.go:663-761 | on a fresh book that is: no vertex and no transaction repeats, there is a vertex, and the vertices can be loaded |
| Sync.LoadedOnce | src/accountant/accountant.go:740-749 | the stream determines the loaded book, genesis address included, exactly when all roots name one issuer |
| Witnesses.GenesisAddressOpen | src/accountant/accountant.go:740-749 | one stream and two books loaded from it, both satisfying the invariant, that guard different wallets |
| Sync.RootedLoadable | src/accountant/accountant.go:707-711 | the vertices of a grown book can be loaded exactly when the genesis transaction is not empty |
| Sync.ReloadRebuilds | src/accountant/accountant.go:663-761 | a grown book streamed in any order and loaded arrives unchanged, field by field |
| Sync.RunReloads | src/accountant/accountant.go:663-835 | for every run of adds and drops from a genesis vertex, any stream of the final graph loads exactly when the genesis transaction is not empty, and the loaded book is the streamed one |
| Sync.LoadedInv | src/accountant/accountant.go:715-726 | a loaded book satisfies the invariant exactly when no vertex has a right parent but the zero hash as its left one and what failed loads left in the index fits the vertices they left |
| Witnesses.HalfParentLoads | src/accountant/accountant.go:715-726 | a stream of two vertices that is loaded and breaks the invariant |
| Accountant.Rollback | src/accountant/accountant.go:604-613 | deleting the vertex just inserted, with whatever edges it got, gives the graph back |
| Accountant.EdgeIsFree | src/accountant/accountant.go:608 | an edge from a known vertex to a new one is never refused by the library's rules |
| Accountant.RunConcat | src/accountant/accountant.go:465-946 | runs compose: what two calls do in sequence is one run |
| Accountant.AccountingBook.constructor | src/accountant/accountant.go:94-140 | a new book is empty, not loaded, has heard nothing, trusts nobody and satisfies the invariant |
| Accountant.AccountingBook.ValidateLeaf | src/accountant/accountant.go:302-414 | a leaf passes exactly when weight and signatures are right and it is a root, or its parents are in the graph where no funds are checked, or the funds check passes; for normal amounts outside the gap in the guard that is exactly when both sums fit and cover; an accepted leaf is covered and a rejected one does not stand; a transfer signed by a node that is not trusted passes, unless it is a root, only with verified parents and funds |
| Accountant.StandsWhen | src/accountant/accountant.go:302-414 | whatever order a walk takes, a verified leaf of sufficient weight passes if it is a root, if it has both parents and moves nothing or was signed by a trusted node, or if its parents are verified and every walk lets it pay |
| Accountant.AccountingBook.UpdateWeightAndThroughput | src/accountant/accountant.go:448-454 | the greatest weight heard is kept, and the throughput grows by the number of leaves and one |
| Accountant.AllRootsStand | src/accountant/accountant.go:456-463 | a node that has not heard a weight above its throughput refuses no leaf for its weight, so every verified root stands |
| Accountant.AccountingBook.AddTrustedNode | src/accountant/accountant.go:838-842 | the node is trusted and joins those ever trusted, none of whom is forgotten; solvency is kept |
| Accountant.AccountingBook.RemoveTrustedNode | src/accountant/accountant.go:845-849 | the node is no longer trusted |
| Accountant.AccountingBook.RejectLeaf | src/accountant/accountant.go:480-481 | only a leaf that does not stand is dropped, with its index entry; invariant and solvency are kept |
| Accountant.AccountingBook.SaveTrxInVertex | src/accountant/storage.go:95-102 | a known transaction is refused and the index kept |
| Accountant.AccountingBook.GetValidLeaves | src/accountant/accountant.go:465-503 | at most two different verified leaves of the graph, each covered; each leaf dropped on the way did not stand when it was; with fewer than two found no other leaf of the old graph is left; the search fails exactly when the leaf validated last was dropped, and otherwise that leaf is the one found last |
| Accountant.AccountingBook.Join | src/accountant/accountant.go:587-619 | index entry, vertex and edges, or the book exactly as before whatever was refused on the way; with a reliable library it succeeds exactly for a new hash and transaction |
| Accountant.AccountingBook.Grow | src/accountant/accountant.go:912-943 | one add step on covered parents, or nothing; invariant and solvency are kept and the parents stay as they were |
| Accountant.AccountingBook.CreateLeaf | src/accountant/accountant.go:854-946 | in this order: not loaded; neither data nor spice; issued by this node; issued by the genesis wallet; transaction known: each is reported exactly then and leaves the book, weight and throughput alone; otherwise success is a run of deserved rejections and one final add of the transaction on verified leaves, on one leaf twice only if no other is left, one heavier than its parents; the search error comes exactly when the leaf validated last was dropped, and the nil leaf exactly when the graph was empty; the new leaf itself is not refused by a reliable library |
| Accountant.AccountingBook.CreateTip | src/accountant/accountant.go:883-946 | the same for a transaction that passed those checks, with what is heard on the way |
| Accountant.AccountingBook.Sprout | src/accountant/accountant.go:904-943 | on two chosen leaves the tip names them, is one heavier than the heavier one and is attached, or nothing changes |
| Accountant.AccountingBook.CheckParent | src/accountant/accountant.go:545-585 | an unknown parent changes nothing, a leaf that does not stand is dropped, any other parent is covered and the graph is left alone; only the weight of a leaf that stands is heard |
| Accountant.AccountingBook.AddLeaf | src/accountant/accountant.go:950-964 | in this order: not loaded; issued by its signer; neither data nor spice; issued by the genesis wallet; hash held; transaction known: each is reported exactly then, and like an unverified vertex changes nothing; success is exactly one add of a verified vertex, with exactly its parents heard; a parent is dropped only if it did not stand when it was looked at; a vertex with a missing parent is remembered while there is room; with a reliable library any other refusal comes from a missing or a dropped parent |
| Accountant.AccountingBook.CheckParents | src/accountant/accountant.go:545-585 | both parents are known and covered and were heard in turn, or one is missing and the book is unchanged, or one that did not stand was dropped |
| Accountant.AccountingBook.AddLeafMemorized | src/accountant/accountant.go:505-624 | the same for a vertex that may have been tried before, with its count of attempts |
| Accountant.AccountingBook.AddVerified | src/accountant/accountant.go:545-624 | the same for a vertex that nothing bars |
| Accountant.AccountingBook.Memorize | src/accountant/replier.go:101-114 | refused exactly when five hundred wait or it waited more than twenty-five times; any other one waits at the end |
| Accountant.AccountingBook.Replay | src/accountant/accountant.go:142-154 | the vertex that came first is tried again as by adding it, waits again only if a parent is missing, and uses up an attempt, so without new ones the buffer runs empty; book, solvency and bounds are kept |
| Accountant.PatienceUsed | src/accountant/replier.go:101-114 | whether a vertex has to wait again or not, trying it lowers the attempts left |
| Accountant.RejectedMore | src/accountant/accountant.go:478-487 | rejections compose: each is judged in the book, weight and throughput the earlier ones left |
| Witnesses.FailsDespiteValidLeaf | src/accountant/accountant.go:478-487 | a book grown from genesis with two leaves, of which one stands and one does not, at every weight below the throughput |
| Witnesses.GraphRunsEmpty | src/accountant/accountant.go:448-463 | an overspending leaf of great weight, whose rejection makes the genesis vertex too light to stand and so empties the graph |
| Accountant.AccountingBook.CreateGenesis | src/accountant/accountant.go:627-660 | succeeds exactly when the receiver is another address of at least 49 characters, the subject is not empty and the transaction is new, and is then one genesis step; a node that has heard no weight above fifty then lets every verified root stand; a refusal changes nothing |
| Accountant.AccountingBook.StartFirst | src/accountant/accountant.go:653-654 | fifty is heard on top of a throughput of fifty, so a node that has heard no more refuses no leaf for its weight |
| Accountant.AccountingBook.CalculateBalance | src/accountant/accountant.go:968-1052 | what the words of a walk from some leaf give; for normal amounts outside the gap in the guard the exact balance, refused exactly when a sum does not fit or it is negative; an error without leaves |
| Accountant.AccountingBook.Truncate | src/accountant/accountant.go:176-254 | one truncation step at exactly the thousandth vertex of a walk over some leaf's ancestors, with every countable address settled in normal form; an error exactly when that walk is shorter, nothing without leaves |
| Accountant.AccountingBook.TruncateAt | src/accountant/accountant.go:211-251 | counting, storing, settling and deleting are one truncation step with every countable address settled in normal form |
| Accountant.ComputedBalanceAfterTruncation | src/accountant/accountant.go:211-251 | an address computable from a leaf above the cut stays computable, and the balance computed stays the same exactly when it paid itself nothing in the cut and had received enough there |
| Accountant.CutLeafStands | src/accountant/accountant.go:302-325 | after a truncation a leaf whose parents were all cut, and the cut point, stand by weight and signatures alone |
| Witnesses.SelfPaymentCountsTwice | src/accountant/precalculate.go:47-54 | a grown book whose cut holds one payment to oneself, which truncation credits a second time |
| Accountant.AccountingBook.LoadDag | src/accountant/accountant.go:663-761 | a loaded node refuses and changes nothing; any other, fresh or after failed loads, is loaded exactly from the streams it can load, and a failure leaves it not loaded, with storage, funds and genesis address kept and the vertices and entries up to the one refused; the throughput starts over either way, so a node that has heard no weight above fifty lets every verified root stand; vertices waiting for parents still wait |
| Accountant.AccountingBook.StartOver | src/accountant/accountant.go:669-670 | a throughput of fifty and a weight of at least fifty, so a node that has heard no more refuses no leaf for its weight |
| Accountant.MoveToStorage | src/accountant/storage.go:273-284 | storage gains exactly the given vertices |
| Accountant.DeleteAll | src/accountant/accountant.go:245-251 | the graph loses exactly the given vertices and the edges at them |
| Gossip.GossipNode.constructor | src/gossip/gossip.go:117-214 | a node with its address and connections remembers nothing |
| Gossip.GossipNode.VerifyGossipers | src/gossip/gossip.go:707-718 | exactly the genuine signers, each once |
| Gossip.GossipNode.ToSlice | src/gossip/gossip.go:744-750 | a list of exactly the signers in the set, each once |
| Gossip.GossipNode.Spread | src/gossip/gossip.go:533-550 | one message to each connected node that is not in the set |
| Gossip.GossipNode.Receive | src/gossip/gossip.go:331-424 | both handlers remember the hash; a remembered hash, a node on the list, a refusal and, for a vertex, any answer but a new leaf send nothing; in every other case the item goes to exactly the connected nodes not on the list, once each, signed by the node |
| Gossip.StepKeepsSane | src/gossip/gossip.go:346-363 | no message is ever addressed to a node on its own list |
| Gossip.RelayLengthens | src/gossip/gossip.go:400-421 | each relayed list is the received one and the relaying node, strictly longer |
| Gossip.SentWork | src/gossip/gossip.go:533-569 | all messages one delivery causes weigh less than the message delivered |
| Gossip.StepUsesPotential | src/gossip/gossip.go:533-569 | every delivery lowers a measure on the nodes not yet on the lists in flight; forgetting does not raise it |
| Gossip.RunUsesPotential | src/gossip/gossip.go:331-569 | over every run the deliveries are paid for by that measure |
| Gossip.FloodingEnds | src/gossip/gossip.go:331-569 | for any topology, delivery order, store answers and forgetting, flooding from one node ends within a number of deliveries that depends only on the number of nodes |
| Gossip.PassedOnce | src/gossip/gossip.go:338-344 | over every run a node passes the item on at most once, and at most once more for each time it forgot the hash |
| Gossip.DeliveryLeaves | src/gossip/gossip.go:338-344 | every delivery uses up one of the messages in flight and of the connections of the nodes that do not remember the hash; the originator, named on every list, has none left |
| Gossip.FloodingOnce | src/gossip/gossip.go:392-398 | from an originator, for any topology, order and answers, no more deliveries than the connections of all nodes together, plus those of a node for each time it forgets; none is forgotten in a run without forgetting |
| Gossip.OriginatedCovers | src/gossip/gossip.go:482-531 | an originator that has sent to its peers starts the coverage invariant |
| Gossip.DeliveredPasses | src/gossip/gossip.go:331-382 | after a delivery its addressee has passed the item on, or is one that may not |
| Gossip.StepKeepsStored | src/gossip/gossip.go:384-424 | whoever stored the item passed it on, and whoever passed it on stored it or failed to save it |
| Gossip.StepKeepsPassing | src/gossip/gossip.go:331-382 | every peer of a node that passed the item on did so too, may not, or is about to receive it |
| Gossip.StepKeepsSigned | src/gossip/gossip.go:346-363 | whoever signed a list or remembers the hash passed the item on, or may not |
| Gossip.RunKeepsCovering | src/gossip/gossip.go:331-550 | every run keeps the coverage invariant |
| Gossip.FloodingCovers | src/gossip/gossip.go:482-550 | once nothing is in flight every node whose store does not fail holds the item if it can be reached through nodes that pass it on, for a transaction also those that fail to save it; and every holder can be reached |
| LocalCache.InsertKeepsIndex | src/localcache/local.cache.go:54-67 | an index stays exactly what the store says when a transaction is added to both |
| LocalCache.DeleteKeepsIndex | src/localcache/local.cache.go:115-136 | and when one is deleted from both; no empty set remains |
| LocalCache.TransactionCache.constructor | src/localcache/local.cache.go:32-42 | an empty cache with the configured size, or a thousand if that is more |
| LocalCache.TransactionCache.WriteIssuerSignedTransactionForReceiver | src/localcache/local.cache.go:45-70 | a known hash and a full cache are refused and change nothing, anything else is stored; indexes and size bound are kept |
| LocalCache.ReadBy | src/localcache/local.cache.go:76-88 | exactly the stored transactions of the party, each once; not-found exactly when there are none; never the unexpected error |
| LocalCache.TransactionCache.ReadAwaitingTransactionsByReceiver | src/localcache/local.cache.go:73-89 | exactly the transactions stored for the receiver, each once, or not-found |
| LocalCache.TransactionCache.ReadAwaitingTransactionsByIssuer | src/localcache/local.cache.go:92-108 | exactly the transactions stored for the issuer, each once, or not-found |
| LocalCache.TransactionCache.CleanOne | src/localcache/local.cache.go:114-137 | one hash goes from the store and both indexes |
| LocalCache.TransactionCache.CleanSignedTransactions | src/localcache/local.cache.go:111-138 | the hashes of the batch go, known or not, and nothing else does |
| HexList.HexRoundTrip | src/cache/cache.go:253-263 | every byte string decodes from its own hexadecimal text |
| HexList.HexDigitsAscend | src/cache/cache.go:253-263 | the sixteen digits are 0-9 and a-f in ascending order, and upper case is read like lower case |
| HexList.HexEncodeAt | src/cache/cache.go:253-263 | each byte is two digits, the higher half first |
| HexList.HexDecodeMeans | src/cache/cache.go:259-263 | a text is read exactly when it is an even number of digits, as half as many bytes |
| HexList.SplitJoins | src/cache/cache.go:300-328 | the parts put together again with commas are the text |
| HexList.SplitAppend | src/cache/cache.go:293-298 | a text extended by a comma and a numeral splits into its parts and that numeral |
| HexList.AddDenotes | src/cache/cache.go:289-298 | adding to a text that denotes a list of hashes appends to the list |
| HexList.Remove | src/cache/cache.go:318-328 | the loop keeps every other part, each behind a comma |
| HexList.RemoveDenotes | src/cache/cache.go:318-328 | removing filters the list, whatever empty parts the text had |
| HexList.RemovedToNothing | src/cache/cache.go:318-328 | the text becomes empty exactly when every part of it was the hash removed |
| HexList.CommaStays | src/cache/cache.go:318-328 | a list with a comma keeps one, whatever hash is removed |
| HexList.Read | src/cache/cache.go:300-316 | every text: empty parts are skipped, broken numerals reported, a numeral of fewer than 32 bytes panics and of a longer one 32 bytes are taken; a text that denotes a list of hashes reads as exactly that list, leading commas or not |
| HexList.ReadMeans | src/cache/cache.go:300-316 | it panics exactly for a part that decodes to fewer than 32 bytes; otherwise it is clean exactly when no part is broken, and every other non-empty part gives one hash |
| Hippocampus.KeysApart | src/cache/cache.go:265-279 | transaction keys and address keys never collide, and each determines its hash or address |
| Hippocampus.NotedList | src/cache/cache.go:96-108 | noting a hash appends to one address's list and touches no other |
| Hippocampus.StruckList | src/cache/cache.go:149-162 | striking a hash filters one address's list and touches no other |
| Hippocampus.NamingWithout | src/cache/cache.go:149-162 | filtering an address's list is listing the filtered live transactions |
| Hippocampus.SavedAgrees | src/cache/cache.go:62-112 | saving keeps the store in agreement with the live transactions and the new one |
| Hippocampus.RemovedAgrees | src/cache/cache.go:115-166 | removing keeps the store in agreement with the live transactions without that one |
| Hippocampus.SavedMarks | src/cache/cache.go:96-108 | saving puts a comma into exactly the lists of addresses a live transaction already named |
| Hippocampus.RemovedMarks | src/cache/cache.go:149-162 | removing neither adds a comma to a list without one nor takes the last from a list with some |
| Hippocampus.StoredAt | src/cache/cache.go:193-208 | every hash on an address's list leads to the live transaction at that place |
| Hippocampus.Memory.constructor | src/cache/cache.go:46-59 | nothing is live |
| Hippocampus.Memory.SaveAwaitedTransaction | src/cache/cache.go:62-112 | refused exactly when the hash is live; otherwise the transaction becomes the youngest live one, and the addresses it shares with live ones are remembered as crowded |
| Hippocampus.Memory.StrikeHash | src/cache/cache.go:149-162 | one address's list loses the hash, an empty list goes with its key |
| Hippocampus.Memory.RemoveAwaitedTransaction | src/cache/cache.go:115-166 | not found exactly when the hash is not live, unauthorised only for someone other than the receiver; otherwise that transaction is returned and goes, and the others keep their order |
| Hippocampus.Memory.ReadTransactions | src/cache/cache.go:168-223 | exactly the live transactions whose issuer or receiver is the address, each once, oldest first; not-found exactly when there are none and no two ever named it at one time |
| Hippocampus.EmptyListGone | src/cache/cache.go:178-182 | deleting an empty list keeps store and live transactions in agreement |
| Hippocampus.CommaLeftBehind | src/cache/cache.go:178-189 | after two hashes are added and removed a comma is left, after one nothing is |

## Left out

Hypotheses the claims rest on:

- Signatures and hash functions: verification is an ideal predicate and SHA-256 a parameter; no vertex has the zero hash.
- Fresh hashes: `CreateLeaf` is given a vertex hash that is not in storage, `CreateGenesis` one that is held nowhere; on a colliding hash the source would keep the index entry of a genesis vertex it refused (src/accountant/accountant.go:642-651).
- Counting: what the words of an address mean by value is said for amounts it moved itself in normal form, and for sums of which no part is exactly the limit of a record (`Audit.Clear`); what truncation stores, for sums below that limit (`Precalculate.CutCountable`).
- Badger, bigcache and msgpack: lossless maps that never fail and never evict; vertices and funds, which share one database, are two maps, so a 32-byte address equal to a vertex hash is not modelled.
- Atomicity: each locked operation is one step; checks made before the lock, cancellation and data races are not modelled.
- The graph library is not part of this model's source: it is described by its documented behaviour, and may refuse a vertex or an edge for reasons of its own.
- Gossip: connections do not change, no message is lost, and items arrive only by gossip.
- Wrap-around of weight and throughput, shifts and masks of Base58 as bit operations (they are division and remainder), its tables as arrays (they are ranges of characters).
- Failing memory allocation in the C code.

Contracts stated for less than the source does:

- Accountant.AccountingBook.AddLeaf: does not model fetching a missing parent from other nodes, because that only calls it again; it and the other operations are stated for loaded books that satisfy the invariant, which one loaded from a stream may not (`Sync.LoadedInv`).
- Accountant.AccountingBook.LoadDag: does not tell the errors of a failed load apart, because what a failed load leaves behind does not depend on them.
- Accountant.AccountingBook.CreateLeaf: does not model the second search for leaves, because it meets the same empty graph and ends in the nil leaf.
- Hippocampus.Memory.ReadTransactions: does not model the clean-up of hashes whose transaction was evicted, because nothing is evicted here.
- Solvency.RunStaysSolvent: does not cover runs with truncation or books loaded from a stream, because truncation makes roots of vertices that were paid for by what was cut and changes balances of vertices that do not see the whole cut (`Truncation.CutMakesRoots`, `Truncation.BalanceFromAnyLeaf`), and loading checks no funds.

Not modelled, because it is input and output, third-party or generated code, or straightforward:

- gRPC, NATS, HTTP, webhooks, telemetry, logging, configuration, the emulator, command lines, wasm and web pages, protobuf code and transformers.
- Encryption, key files, `b58check`, `b58check_enc`, transaction.c and config.c.
- Conversion of amounts from floating point, and the amount codec.
- Parent fetching, the timing of replays and the truncation trigger.
- Cached balances, and reads of single vertices and transactions by hash or address.
