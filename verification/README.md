# Verification of the gateway plugin's core

A Dafny model of the parts of the plugin that carry its own algorithms: the
red-black tree and the ordered maps built on it, the AES cipher with its modes
and padding, the table-driven struct/JSON codec, the MQTT client, the thread
pool, dynamically typed values, and configuration trees. `dafny verify
dfyconfig.toml` checks the whole project.

| files | what they model |
|---|---|
| `RbModel`, `RbBalance`, `RbSplice`, `RbTree`, `RbOrder`, `RbPacking` | the red-black tree of `src/rbtree.c`: nodes are objects that the methods rewrite, and every write is proved against a tree with a hole ("context" and "subtree") that the heap represents |
| `OrderedMap`, `MapRuns` | the maps of `src/map.c` and `src/map.h` for any strict total order on keys, and whole runs of map operations |
| `AesField`, `AesColumn`, `AesCipher`, `AesRounds` | GF(2^8), the substitution tables, MixColumns, the cipher, its inverse and the modes as functions, and each round and key word byte by byte |
| `Aes`, `AesContext`, `AesModes` | the same in place on byte arrays, with the loops and offsets of `src/aes.c`, and PKCS#7 padding |
| `CsonModel`, `CsonCodec`, `CsonRoundTrip`, `CsonWidths`, `CsonCodes`, `CsonLoops` | reflection tables, packing, parsing, the round trip, the widths of what is stored, the return codes, and the loops of `src/cson.c` |
| `Paths` | names divided into levels by a separator, shared by topics and configuration paths |
| `MqttTopics`, `MqttList`, `MqttQueue`, `Mqtt`, `MqttHistory`, `MqttClient` | topic matching, the linked subscription list, the linked queue, the client as a state machine, what its codes, subscriptions and delays are over whole runs, and its functions on the linked structures |
| `TaskRing`, `PoolSlots`, `ThreadPool`, `ThreadPoolDrain`, `ThreadPoolRuns` | the ring buffer, the loops over worker slots, and callers, workers, manager and destroyer as interleaved steps, with three runs that go wrong |
| `AnyModel`, `AnyText`, `AnyRead`, `AnyParse` | equality, duplication and printing of dynamic values, and a reader that gets the value back from the text |
| `ConfTree`, `ConfPath` | teardown of linked configuration trees, paths and lookup |

How the tree model works: `RbModel.Focus` says that a heap snapshot holds a
subtree at a place and the rest of the tree around it. Each rotation, recolouring
or relinking is one lemma that turns a focus into another focus, and the balance
lemmas say what the move does to colours and black heights. The methods of
`RbTree` perform the assignments of the source, one after the other, and are
proved to carry out these moves; `RbOrder` and `OrderedMap` then only speak of
the in-order sequence and of a finite map.

## Findings

What the proofs showed about the code, beyond what it promises:

- A topic filter ending in `#` does not match its own parent level; this is the
  only difference from the standard (`MqttTopics.DiffersOnParent`). When the
  library passes length 0 for a topic, as its header allows, only the filters
  "", "+" and "#" match (`MqttTopics.UnknownLength`).
- Unsubscribing a topic that is not listed adds an entry without a callback
  (`MqttList.NullCallback`).
- A client stopped and started again while the disconnect is still under way can
  be left running without connection, attempt or timer (`Mqtt.GivesUp`); so can one
  that is started only once, if it is stopped while a publish call is starting it
  again (`Mqtt.GivesUpStartedOnce`). A caller that starts the client only when every
  disconnect it asked for has been answered, and stops it only when no publish call
  is starting it, never sees this (`Mqtt.NeverGivesUp`); in terms of the run, it
  happens exactly when a late disconnect does (`Mqtt.RunStaysHopeful`).
- `mqtt_stop` can be undone by a publish call that has found the connection lost.
  The client stays stopped, until its caller starts it, exactly when no publish call
  was on its way to `mqtt_start` (`Mqtt.StopHolds`); `Mqtt.StopUndone` reaches such a
  state.
- `mqtt_publish` returns 1 both for a queued message and for one it drops
  (`Mqtt.RecheckReturns`), and a queued message the library does not take while
  draining is lost (`MqttClient.DrainedOrLost`).
- The pool's `num_live += increase` outside the lock can lose an exit
  (`ThreadPoolRuns.LostUpdate`). After any run `num_live` is too high by exactly the
  exits that came between its read and its write, and so right exactly when there
  was none (`ThreadPool.RunAccounts`).
- A stale snapshot can take the pool below its minimum
  (`ThreadPoolRuns.BelowMinimum`), though never by more than one batch. Over a run
  it stays at the minimum exactly when each request for exits finds `num_live`
  unchanged since the snapshot or a whole batch above the minimum
  (`ThreadPool.RunStaysAbove`).
- `tp_destroy`, once draining, can return exactly when a worker is alive and no exit
  was lost (`ThreadPool.DestroyReturnsWhen`). A pool destroyed before its manager has
  started the first worker never gets out of it (`ThreadPoolRuns.StuckFromCreation`).
  Otherwise, if workers leave when told to, draining takes a bounded number of their
  steps however they are scheduled (`ThreadPoolDrain.DrainBounded`).
- PKCS#7 removal works exactly for messages under 240 bytes
  (`AesModes.UnpadPadded`); from 256 padded bytes on it reports an error or never
  ends, and a final byte larger than the buffer gives a wrapped length.
- `AES_Decrypt` decrypts its first argument in place and overwrites its second,
  contrary to its header comment; the source's own remark says so
  (`AesModes.Decrypt`).
- A count field left out of the JSON by the encode flag alone comes back exactly
  when an array that it counts stands after it, and as zero otherwise
  (`CsonRoundTrip.EncodeOnlyCount`, `CsonRoundTrip.LateCountLost`).
- An array that is not null but has no items is refused like a null one: it comes
  back null, or the whole struct is not packed where the row is not nullable
  (`CsonRoundTrip.EmptyArrayLost`). Nothing else that packs is lost
  (`CsonRoundTrip.RoundTrip`).
- `k1 - k2` orders two integer keys as they stand exactly when the difference does
  not overflow (`MapRuns.DifferenceOrders`). On all int keys it is no order, because
  it puts some in a circle (`MapRuns.DifferenceCycles`); on keys less than 2^31 apart
  it is one (`MapRuns.DifferenceOrder`).
- The estimate of `any_to_json_str` is an int, and is the true estimate exactly below
  2^31 (`AnyText.IntEnough`). From there to 2^32 it is negative; beyond, it may be far
  too small for the buffer (`AnyText.Overrun`: 513 for a text of more than 2^32
  characters, built from one shared string of 2^24 - 1) or by chance large enough
  (`AnyText.EnoughByChance`).
- A duplicate of a value equals it exactly when it holds no const string
  (`AnyModel.DuplicateEqual`).
- The text of a value can be read back as long as its strings and keys hold no quote
  (`AnyParse.TextReadBack`). Quotes are written as they are, so that two different
  values may have the same text (`AnyParse.QuotesAmbiguous`).
- A bool field counts by its lowest byte: 256 is packed as false
  (`CsonCodes.BoolByte`). The number 2^63 passes the range test and is then converted
  to an integer that cannot hold it (`CsonWidths.NumberBetween`).

## Model

| member | source | states |
|---|---|---|
| RbModel.RotateLeftFocus | src/rbtree.c:4-23 | the writes of a left rotation turn a tree with the node in focus into the rotated tree in the same surroundings, parent links and root pointer included, and touch nothing else |
| RbModel.RotateRightFocus | src/rbtree.c:25-44 | the mirror image for a right rotation |
| RbModel.RotateLeftInorder | src/rbtree.c:4-23 | a left rotation keeps the in-order sequence |
| RbModel.RotateRightInorder | src/rbtree.c:25-44 | a right rotation keeps the in-order sequence |
| RbTree.RotateLeft | src/rbtree.c:4-23 | the assignments of the source perform the rotation on the objects |
| RbTree.RotateRight | src/rbtree.c:25-44 | the same for the right rotation |
| RbBalance.RecolouredStep | src/rbtree.c:52-59 | with a red uncle, recolouring moves the one red-red violation two levels up and restores everything below |
| RbBalance.OuterStep | src/rbtree.c:60-66 | an inner grandchild is first rotated outwards without changing black heights |
| RbBalance.SettledStep | src/rbtree.c:67-69 | with a black uncle, one rotation and two colour changes remove the violation for good |
| RbTree.InsertColor | src/rbtree.c:46-92 | from a tree whose only flaw is one red node under a red parent, the loop ends in a red-black tree with the same in-order sequence and correct links; it terminates because the context gets shorter |
| RbBalance.LiftedStep | src/rbtree.c:99-104 | a red sibling is exchanged for a black one, the missing black staying where it is |
| RbBalance.SunkStep | src/rbtree.c:105-109 | a black sibling with black children turns red and the missing black moves to the parent |
| RbBalance.StraightenedStep | src/rbtree.c:111-116 | a red near nephew becomes a red far nephew |
| RbBalance.MendedStep | src/rbtree.c:117-121 | with a red far nephew, one rotation restores the missing black |
| RbTree.EraseColor | src/rbtree.c:94-156 | from a tree one black short at one place, the loop ends in a red-black tree with the same in-order sequence and correct links |
| RbSplice.TransplantFocus | src/rbtree.c:172-197 | relinking the in-order successor, whether or not it is the right child, puts that very node in the erased node's place, with its colour and both children, and its own child in the successor's old place |
| RbSplice.SuccessorOwing | src/rbtree.c:166-200 | after relinking, the tree is red-black, or one black short at the successor's old place if the successor was black; the in-order sequence is the old one without the erased node |
| RbSplice.OnlyChildOwing | src/rbtree.c:204-220 | the same when the erased node has at most one child |
| RbTree.EraseAt | src/rbtree.c:158-221 | all cases of erasing end in a red-black tree whose sequence is the old one minus the node |
| RbOrder.Erase | src/rbtree.c:158-221 | erasing the i-th node of a valid tree leaves a valid tree with the i-th node removed from the sequence and no other node replaced or moved |
| RbOrder.Insert | src/rbtree.h:66-70 | linking a red leaf at any empty place and repairing colours leaves a valid tree with the node inserted at that place of the sequence |
| RbOrder.First | src/rbtree.c:275-284 | the first node of the sequence, null for the empty tree |
| RbOrder.Last | src/rbtree.c:286-295 | the last node of the sequence, null for the empty tree |
| RbOrder.Next | src/rbtree.c:297-313 | from the i-th node, the (i+1)-th, null after the last, and null for a cleared node |
| RbOrder.Prev | src/rbtree.c:315-331 | from the i-th node, the (i-1)-th, null before the first; so it undoes Next |
| RbOrder.Traverse | src/rbtree.c:275-313 | starting at the first node and following next visits the whole sequence, each node once, and stops |
| RbOrder.ReplaceNode | src/rbtree.c:333-351 | replacing a node in place puts the new node at the same index of a valid tree |
| RbBalance.HeightBound | src/rbtree.c:46-221 | a red-black tree of n nodes has height at most 2 log2(n+1) |
| RbBalance.DepthBounded | src/map.c:70-84 | any place reached in such a tree is no deeper than that |
| RbPacking.FieldsRead | src/rbtree.h:21-24 | an aligned pointer and a colour bit packed into one word are read back unchanged; alignment to 4 bytes is enough |
| RbPacking.ParentWritten | src/rbtree.h:28-30 | setting the parent keeps the colour and replaces the whole pointer |
| RbPacking.RedWritten | src/rbtree.h:25-25 | setting red keeps the parent |
| RbPacking.BlackWritten | src/rbtree.h:26-26 | setting black keeps the parent |
| RbPacking.ColourWritten | src/rbtree.h:32-34 | setting a colour keeps the parent |
| RbPacking.ParentSurvives | src/rbtree.h:28-30 | the pointer written comes back exactly when its two low bits are clear, which the alignment attribute guarantees |
| RbPacking.NarrowParent | src/rbtree.h:21-21 | where a word has 32 bits, the parent is what a 32-bit mask gives |
| RbPacking.NarrowSetParent | src/rbtree.h:28-30 | and setting the parent gives a 32-bit word again |
| OrderedMap.DescendBetween | src/map.c:72-82 | the search path ends at the key's node, or at the empty place with all smaller keys before and all greater keys after it |
| OrderedMap.Map.Find | src/map.c:70-84 | finds the entry of the key if and only if the finite map has it, with at most 2 log2(n+1) comparisons |
| OrderedMap.Map.Insert | src/map.c:86-109 | the finite map gains or overwrites that one binding; an existing key keeps its entry object and node |
| OrderedMap.Map.Erase | src/map.c:111-118 | exactly that key leaves the finite map; every other entry keeps its node, key and value |
| OrderedMap.Map.First | src/map.c:120-123 | the entry of the least key, null when empty |
| OrderedMap.Map.Next | src/map.c:130-133 | the entry of the next greater key, null at the end |
| OrderedMap.Map.Prev | src/map.c:125-128 | the entry of the next smaller key, null at the start |
| OrderedMap.Map.Iterate | src/map.c:120-133 | from map_first along map_next, each key of the finite map once, in strictly increasing order, with its value |
| OrderedMap.Map.Clear | src/map.c:63-68 | erasing the first entry until none is left ends with the empty map |
| OrderedMap.TableAdd | src/map.h:107-131 | a new entry under a fresh key adds exactly one binding |
| OrderedMap.SizeAlong | src/map.c:86-118 | the number of nodes is the number of keys of the finite map |
| MapRuns.Apply | src/map.c:70-118 | one operation does to the map what it does to a finite map, and answers alike; every iterator but that of a removed key stays the same object on the same node |
| MapRuns.Run | src/map.c:70-118 | so does any sequence of finds, inserts and erases, with every answer equal to the finite map's; an iterator whose key the run never removes stays the same object on the same node and holds the value last put under its key |
| MapRuns.SparedBound | src/map.c:86-118 | a key never removed stays bound, to the value of its last insertion |
| MapRuns.LastDecides | src/map.c:70-118 | what a run leaves under a key is the value of the last insertion, nothing after a later erase, and what was there if neither occurs |
| MapRuns.StrCmpOrder | src/map.h:54-54 | comparing strings as strcmp does is a strict total order |
| MapRuns.StrCmpMeans | src/map.h:54-54 | it is negative if and only if, after a common start, the first string ends or has the smaller character |
| MapRuns.DifferenceOrders | src/map.h:53-53 | the sign of the wrapped difference is the order of the keys exactly when the difference does not overflow |
| MapRuns.DifferenceCycles | src/map.h:53-53 | three keys that the wrapped difference orders in a circle |
| MapRuns.DifferenceOrder | src/map.h:53-53 | on keys in any window of 2^31 the wrapped difference is a strict total order |
| AesField.SBoxIsFips | src/aes.c:36-54 | each entry of the table is the affine image of the multiplicative inverse, as section 5.1.1 of FIPS 197 prescribes |
| AesField.SBoxRestored | src/aes.c:57-75 | the inverse table undoes the table |
| AesField.SBoxCovered | src/aes.c:57-75 | and the table undoes the inverse table |
| AesField.XTimeLinear | src/aes.c:195-207 | doubling in GF(2^8) distributes over addition |
| AesField.MulLinear | src/aes.c:217-246 | so does multiplication by every coefficient of the two MixColumns matrices |
| AesColumn.ForwardIsMatrix | src/aes.c:227-231 | the sums and doublings of MixColumns compute the matrix of section 5.1.3 of FIPS 197 |
| AesColumn.InverseIsMatrix | src/aes.c:233-242 | with the four-doubling correction they compute the inverse matrix of section 5.3.3 |
| AesColumn.MixedBack | src/aes.c:217-246 | the inverse matrix undoes the matrix |
| AesColumn.MixedForth | src/aes.c:217-246 | and the matrix undoes its inverse |
| AesCipher.ShiftedBack | src/aes.c:163-186 | shifting the rows back undoes shifting them, in either order |
| AesCipher.SubstitutedBack | src/aes.c:144-153 | substituting with the other table undoes a substitution |
| AesCipher.RoundsUndone | src/aes.c:282-299 | deciphering an enciphered block passes through the states of the rounds in the opposite order |
| AesCipher.DecipherEnciphered | src/aes.c:255-299 | deciphering undoes enciphering for every block, key schedule and number of rounds |
| AesCipher.EncipherDeciphered | src/aes.c:255-299 | enciphering undoes deciphering |
| AesCipher.DecryptEncrypted | src/aes.c:354-412 | for every buffer, vector and key schedule, ECB and CBC decryption undo encryption |
| AesCipher.EncryptDecrypted | src/aes.c:354-412 | and encryption undoes decryption |
| AesCipher.EncryptedBlock | src/aes.c:364-372 | block j of the ciphertext is the cipher of block j of the plaintext whitened with block j - 1 of the ciphertext (section 6.2 of NIST SP 800-38A) |
| AesCipher.DecryptedBlock | src/aes.c:394-411 | block j of the plaintext depends on blocks j and j - 1 of the ciphertext only |
| Aes.XorBytes | src/aes.c:107-115 | the window becomes the exclusive-or, the rest of the array stays |
| Aes.SubBytes | src/aes.c:144-153 | the window is substituted byte by byte, the rest stays |
| Aes.ShiftRows | src/aes.c:163-186 | row by row through the scratch row, the window becomes the shifted state |
| Aes.MixColumns | src/aes.c:217-246 | column by column, the window becomes the matrix product |
| AesRounds.WhitenedByte | src/aes.c:259-259 | before the first round each byte is the exclusive-or of its plaintext byte and byte k of the schedule |
| AesRounds.RoundByte | src/aes.c:261-272 | in rounds 1 to nr - 1 each byte is the 2, 3, 1, 1 combination of the SBox images of the shifted bytes, and the byte of that round's part of the schedule |
| AesRounds.LastRoundByte | src/aes.c:261-272 | in the last round it is the SBox image of the shifted byte, and the byte of the last part of the schedule |
| AesRounds.EncipheredStates | src/aes.c:255-273 | the encipherment is the last of nr + 1 states that follow each other so |
| AesRounds.KeyByte | src/aes.c:320-320 | the schedule starts with the key |
| AesRounds.TurnedWordByte | src/aes.c:324-342 | at multiples of nk a byte takes in the SBox image of the next byte of the word before, a power of 2 in front, and the byte nk words back |
| AesRounds.MiddleWordByte | src/aes.c:324-342 | for 256-bit keys, at i % 8 == 4, the SBox image of the byte of the word before |
| AesRounds.OtherWordByte | src/aes.c:324-342 | otherwise that byte itself |
| AesRounds.RconPowers | src/aes.c:324-342 | the round constants start at 1 and double in GF(2^8) |
| AesRounds.EncryptedFrom | src/aes.c:354-373 | each ciphertext block enciphers the bytes of the plaintext block, in CBC exclusive-or the block or vector before it |
| AesRounds.EncryptedTail | src/aes.c:354-412 | bytes after the last whole block are left alone in both directions |
| AesContext.Context.Init | src/aes.c:313-343 | the table holds every word of the expanded key, for keys of 128, 192 and 256 bits |
| AesContext.Context.BlockEncrypt | src/aes.c:255-273 | the block becomes its encipherment in place, the last of the states that the rounds pass through byte by byte |
| AesContext.Context.BlockDecrypt | src/aes.c:282-299 | the block becomes its decipherment in place |
| AesModes.Encrypt | src/aes.c:354-373 | the second buffer becomes the encryption of the first, which may be the same buffer; bytes after the data stay |
| AesModes.DecryptInPlace | src/aes.c:394-411 | working from the last block to the first, each ciphertext block is still intact when the block after it needs it, and the buffer becomes the decryption |
| AesModes.Decrypt | src/aes.c:384-412 | the first buffer is decrypted in place; a different second buffer receives the ciphertext |
| AesModes.EncryptThenDecrypt | src/aes.c:354-412 | encrypting and decrypting in place restores the buffer |
| AesModes.AddPadding | src/aes.c:422-452 | the buffer holds the message padded as in section 6.3 of RFC 5652 |
| AesModes.DeletePadding | src/aes.c:462-482 | returns what the case analysis of padding removal says |
| AesModes.RemovalMeaning | src/aes.c:473-481 | that case analysis is what the scan with its 8-bit counter does, and where it says so the scan never ends |
| AesModes.UnpadPadded | src/aes.c:422-482 | removing the padding gives the length back exactly for messages under 240 bytes |
| AesModes.SealAndOpen | src/aes.c:354-482 | pad, encrypt, decrypt, remove: length and bytes of any message under 240 bytes come back |
| CsonModel.ExactWhenMultiple | src/cjson_impl.c:86-90 | an integer is kept as a double exactly when it is a multiple of the spacing of doubles there |
| CsonModel.SmallIsExact | src/cjson_impl.c:86-90 | all integers up to 2^53 are kept |
| CsonModel.TooPrecise | src/cjson_impl.c:86-90 | 2^53 + 1 is not |
| CsonRoundTrip.IntegerBack | src/cson.c:582-645 | an integer field in range comes back from its JSON number exactly when a double can hold it |
| CsonRoundTrip.BoolBack | src/cson.c:310-334 | a bool field comes back exactly when it is 0 or 1 |
| CsonRoundTrip.PackedLookup | src/cson.c:168-201 | every row that packs is found under its own name without regard to case, and no row that did not pack is found |
| CsonRoundTrip.PackStructFits | src/cson.c:168-334 | packing a fitting struct succeeds at every depth |
| CsonRoundTrip.RowBack | src/cson.c:391-515 | parsing a packed row gives what that row returns, and for an array its count field too, excluded from the JSON or not |
| CsonRoundTrip.ItemsBack | src/cson.c:449-465 | the items of an array come back one by one, in order |
| CsonRoundTrip.Returns | src/cson.c:168-515 | for all well-formed tables and fitting structs, through nested objects, arrays, null strings and arrays, and excluded fields: packing succeeds, and parsing into a zeroed struct gives the struct with arrays without items null and counts reset on the way zero |
| CsonRoundTrip.ReturnedKept | src/cson.c:168-515 | that struct is the one packed exactly when no transported array is without items and every count reset on the way has an array after it, at every depth |
| CsonRoundTrip.RoundTrip | src/cson.c:168-515 | so packing and then parsing restores the struct if and only if those two conditions hold |
| CsonRoundTrip.NotFoundFails | src/cson.c:362-385 | parsing fails on a row that is looked for, not found and not nullable |
| CsonRoundTrip.EncodeOnlyCount | src/cson.c:350-389 | a count excluded from encoding only, of an array with items, comes back if and only if an array it counts stands after it, and otherwise as zero |
| CsonRoundTrip.EmptyArrayLost | src/cson.c:286-292 | an array without items is refused; the struct is then not packed, or the array comes back null |
| CsonRoundTrip.LateCountLost | src/cson.c:350-389 | a struct whose count field, excluded from encoding only, follows its array does not come back |
| CsonWidths.ParseWidths | src/cson.c:350-515 | after any parse of any JSON tree, done or failed, every integer and bool row at every depth holds a value of its width, with the bounds of 1, 2, 4 and 8 bytes |
| CsonWidths.ParsedWidths | src/cson.c:350-515 | in particular when parsing into zeroed memory |
| CsonWidths.NumberStored | src/cson.c:582-645 | a number inside the 64-bit range is stored without its fraction if and only if that fits the width, and is refused with ERR_OVERFLOW if not |
| CsonWidths.NumberBeyond | src/cson.c:582-645 | one outside that range is refused with ERR_OVERFLOW |
| CsonWidths.NumberBetween | src/cson.c:582-600 | 2^63 itself is let through |
| CsonWidths.OverflowRefused | src/cson.c:362-385 | a number too wide for its row fails the parse with ERR_OVERFLOW if the row is not nullable, and leaves 0 in it and goes on if it is |
| CsonCodes.SameNameMeans | src/cjson_impl.c:10-12 | names are the same when they differ in the case of letters only |
| CsonCodes.LookupFirst | src/cjson_impl.c:10-12 | the member found is the first of that name |
| CsonCodes.FirstRefusal | src/cson.c:168-201 | the first row that is refused and not nullable decides the result |
| CsonCodes.AllPass | src/cson.c:168-201 | without one, exactly the rows packed become members, in table order |
| CsonCodes.NullRowCode | src/cson.c:168-201 | a null row takes over the code of the last row packed before it |
| CsonCodes.BoolByte | src/cson.c:310-334 | a bool is packed as false exactly when its lowest byte is zero |
| CsonCodes.PackedFrom | src/cson.c:264-284 | the JSON array holds exactly the items that can be packed, in order |
| CsonCodes.BasicRefusal | src/cson.c:264-284 | a basic item that is refused ends in releasing an unset pointer |
| CsonCodes.MissingRow | src/cson.c:362-385 | a row not found is reset to zero or null; the parse fails with ERR_MISSING_FIELD, or goes on if it is nullable |
| CsonCodes.MistypedRow | src/cson.c:367-385 | the same with ERR_TYPE exactly when the item is of another type than the row |
| CsonCodes.SlotsKept | src/cson.c:449-465 | items stored before stay, and slots after the next one are not touched |
| CsonCodes.FailedSlot | src/cson.c:449-465 | an item that fails leaves its traces in the slot that the next one would use |
| CsonLoops.FindRow | src/cson.c:669-686 | the first row of that name, -1 if none |
| CsonLoops.StructToJson | src/cson.c:168-201 | the loop over the table, with its leftover return code, packs as specified |
| CsonLoops.ArrayToJson | src/cson.c:248-295 | the loop over the items packs as specified |
| CsonLoops.JsonToStruct | src/cson.c:350-389 | the loop over the table parses as specified, defaults and nullable rows included |
| CsonLoops.JsonToArray | src/cson.c:428-483 | the loop over the items parses as specified, failed items leaving their traces in the slot reused next |
| Paths.JoinLevels | src/mqtt.c:82-94 | joining the levels of a name gives the name back |
| Paths.LevelsJoin | src/config.c:317-323 | splitting joined names gives the names back |
| MqttTopics.LevelCount | src/mqtt.c:70-75 | the counting loop's number of levels is the number of levels cut |
| MqttTopics.Split | src/mqtt.c:312-332 | the two loops cut exactly the levels of the given length, into an array of just that size |
| MqttTopics.MatcherIsStandard | src/mqtt.c:335-366 | a filter matches exactly as section 4.7.1 of MQTT Version 3.1.1 says, on topics with at least as many levels as the filter; on shorter ones it never matches |
| MqttTopics.DiffersOnParent | src/mqtt.c:336-338 | on shorter topics the standard matches exactly the parent level of a final '#' |
| MqttTopics.UnknownLength | src/mqtt.c:312-332 | with length 0 only three filters match |
| MqttList.SubscribedDistinct | src/mqtt.c:508-536 | no topic is ever listed twice |
| MqttList.SubscribedAnswers | src/mqtt.c:508-536 | afterwards the topic is answered by the new callback in the context of its first subscription, or not at all if unsubscribed |
| MqttList.SubscribedOthers | src/mqtt.c:508-536 | other topics are answered as before |
| MqttList.NullCallback | src/mqtt.c:508-511 | an entry without callback appears exactly when a topic not listed is unsubscribed |
| MqttList.TopicList.Subscribe | src/mqtt.c:508-536 | the linked list is changed to the specified sequence |
| MqttList.TopicList.Arrived | src/mqtt.c:312-382 | finds the first matching item of the list, none exactly when nothing matches |
| MqttQueue.Queue.EmplaceBack | src/deque.h:87-101 | the message goes to the end of the queue |
| MqttQueue.Queue.PopFront | src/deque.h:108-120 | the oldest message leaves, the others keep their order |
| Mqtt.QueueKept | src/mqtt.c:204-234 | every step keeps: drained, then pending, is enqueued, in order |
| Mqtt.PublishKept | src/mqtt.c:556-601 | every step keeps: each publish call is under way, told of a lost connection, handed to the library, enqueued or refused, one of these and once |
| Mqtt.SendReturns | src/mqtt.c:583-600 | a call returns 0 exactly when the library took its message, and looks at the client again exactly when told of a lost connection |
| Mqtt.RecheckReturns | src/mqtt.c:587-593 | then it returns 1, without enqueuing exactly when the client has been stopped by then |
| MqttHistory.ReturnsMean | src/mqtt.c:556-601 | over any run of a new client, a publish call returns 0 if and only if its message was handed to the library, and 1 if it was enqueued |
| MqttHistory.QueuedAsPublished | src/mqtt.c:556-601 | over any run the messages enqueued are those the callers published, under the number of the call |
| MqttHistory.RunSubscribes | src/mqtt.c:142-150 | over any run the list is what the subscribe calls since the last lost connection make of the empty one, or of the first |
| MqttHistory.LostLeavesNone | src/mqtt.c:145-147 | after a lost connection there is no subscription until the next subscribe call |
| MqttHistory.RunFlags | src/mqtt.c:142-259 | over any run, the client runs and is connected as the last step that decides it says |
| MqttHistory.UnderWay | src/mqtt.c:142-259 | every timer, attempt, disconnect and connect callback is there from the step that begins it to the one that ends it |
| MqttHistory.NewWaits | src/mqtt.c:135-140 | over any run the index is the number of retries scheduled since the last successful connect, up to the end of the table |
| MqttHistory.SecondsWaited | src/mqtt.c:135-140 | so the retries wait 1, 2, 5, 10, 20, 30, 60, 120, 180, 300 and then 600 seconds |
| MqttHistory.DrainCanEnd | src/mqtt.c:213-234 | a drain under way can always empty the queue and free the mutex |
| Mqtt.WaitKept | src/mqtt.c:135-140 | the back-off index stays inside the table and grows by one with every retry |
| Mqtt.DelaysGrow | src/mqtt.c:135-140 | delays grow strictly up to 600 seconds |
| Mqtt.ConnectKept | src/mqtt.c:142-259 | a running client keeps a connection, an attempt or a timer over every step but one kind, which breaks it |
| Mqtt.RunKeeps | src/mqtt.c:142-601 | over any run, with any answers of the library, queue, publish, back-off and subscription invariants hold |
| Mqtt.RunDrainsAll | src/mqtt.c:213-234 | over any run, whenever a drain ends, every message ever enqueued has been drained, those appended during the drain included, and each was sent or lost |
| Mqtt.ClearKept | src/mqtt.c:142-259 | if mqtt_start is called only when no disconnect is under way, and mqtt_stop only when no publish call is on its way to mqtt_start, then over every step a running client has no disconnect under way and keeps its connection, attempt, timer or restarting call |
| Mqtt.NeverGivesUp | src/mqtt.c:142-259 | over any run with such a caller the client never gives up |
| Mqtt.RunStaysHopeful | src/mqtt.c:142-259 | over any run at all, it never gives up if and only if no disconnect is late |
| Mqtt.GivesUp | src/mqtt.c:249-253 | a run with a late disconnect after which it has |
| Mqtt.GivesUpStartedOnce | src/mqtt.c:584-593 | another, in which the caller starts the client only once |
| Mqtt.StopHolds | src/mqtt.c:584-593 | a stopped client stays stopped over every run without mqtt_start if and only if no publish call was on its way to mqtt_start |
| Mqtt.StopUndone | src/mqtt.c:584-593 | a run to a stopped client with such a call |
| MqttClient.MqttInstance.Publish | src/mqtt.c:556-601 | the function on the linked queue takes the steps of the state machine, one part after the other; it returns 0 exactly for a message the library took, 1 for one queued or dropped, and queues it exactly when there is no connection or a running client has lost it |
| MqttClient.MqttInstance.PublishQueued | src/mqtt.c:567-573 | its part under the mutex is the step that enqueues or goes on to send |
| MqttClient.MqttInstance.SendAnswered | src/mqtt.c:583-600 | its part after the library's answer is the step of that answer, with the code returned |
| MqttClient.MqttInstance.RecheckRunning | src/mqtt.c:587-591 | its look at running is the step that refuses or enqueues |
| MqttClient.MqttInstance.Restart | src/mqtt.c:592-592 | its call of mqtt_start is the step that starts the client, stopped or not |
| MqttClient.MqttInstance.OnConnect | src/mqtt.c:204-234 | the flags, then the draining loop with one draining step for every pending message |
| MqttClient.MqttInstance.Connected | src/mqtt.c:207-209 | its part before the mutex is the step that sets the flags |
| MqttClient.MqttInstance.DrainPending | src/mqtt.c:213-233 | its part under the mutex gives the library what is pending by then, in order, whatever happened in between |
| MqttClient.DrainedInOrder | src/mqtt.c:214-232 | draining leaves nothing pending and takes the messages in order |
| MqttClient.DrainedOrLost | src/mqtt.c:225-231 | the messages lost are those the library did not take |
| MqttClient.MqttInstance.ConnLost | src/mqtt.c:142-150 | the subscriptions go and reconnecting starts |
| TaskRing.PutAppends | src/thread_pool.c:83-90 | adding a task, wrap-around included, appends it to the waiting tasks and keeps rear = (front + size) mod capacity |
| TaskRing.TakeRemoves | src/thread_pool.c:182-188 | taking a task removes the oldest and keeps the ring well-formed |
| TaskRing.TaskQueue.AddTask | src/thread_pool.c:74-94 | returns 0 exactly when full; dequeued tasks followed by the waiting ones are the accepted ones |
| TaskRing.TaskQueue.TakeTask | src/thread_pool.c:181-188 | tasks are dequeued in the order in which they were accepted |
| ThreadPool.QueueKept | src/thread_pool.c:74-193 | every step of every thread keeps that each accepted task is dequeued once and in order |
| ThreadPool.SlotsKept | src/thread_pool.c:113-179 | every step as written keeps num_live equal to the enabled slots, those still to be started and the exits lost, and within [0, num_max]; between its read and its write the value read exceeds num_live by the exits since |
| ThreadPool.WriteExact | src/thread_pool.c:126-126 | the write makes num_live right if and only if it still is what was read, which is so exactly when nobody left in between |
| ThreadPool.ScanCompletes | src/thread_pool.c:126-133 | the manager's scan ends only when all the workers it set out to start are started |
| ThreadPool.SnapshotKept | src/thread_pool.c:114-142 | the manager's snapshot is stale by exactly the exits since it was taken |
| ThreadPool.ExitKept | src/thread_pool.c:134-142 | before destruction num_live minus num_exit never falls more than one batch below num_min; while draining both are equal |
| ThreadPool.RunKeeps | src/thread_pool.c:74-200 | all these over any run of the steps as written |
| ThreadPool.RunKeepsQueue | src/thread_pool.c:74-193 | over any run the accepted tasks are the dequeued ones followed by the waiting ones |
| ThreadPool.RunAccounts | src/thread_pool.c:113-179 | after any run num_live is too high by exactly the exits that came between a read and its write, and right if and only if there was none |
| ThreadPool.AtomicLosesNone | src/thread_pool.c:126-126 | if every read is followed at once by its write, there is none |
| ThreadPool.MinKept | src/thread_pool.c:134-142 | before draining, a step keeps num_live - num_exit at num_min or more if and only if it does not request exits on a changed snapshot with less than a batch to spare |
| ThreadPool.RunStaysAbove | src/thread_pool.c:74-200 | a run before draining stays at the minimum if and only if no step of it does |
| ThreadPool.ManagerDecides | src/thread_pool.c:118-134 | on its snapshot the manager grows with more tasks than workers below the maximum, asks for exits with less than half of them busy above the minimum, and does nothing otherwise |
| ThreadPool.GrowsBy | src/thread_pool.c:119-126 | it adds one or two workers, as many as tasks and maximum leave room for |
| ThreadPool.ShrinksBy | src/thread_pool.c:134-142 | it asks one or two to leave, never more than stand above the minimum of its snapshot |
| ThreadPool.RunKeepsWork | src/thread_pool.c:181-193 | over any run every dequeued task is finished or in the hands of one worker, and num_busy counts the workers inside a task |
| ThreadPool.FreedWhenQuiet | src/thread_pool.c:52-72 | when tp_destroy frees the pool the manager has stopped, no worker is left and every task taken is finished |
| ThreadPool.DestroyStuck | src/thread_pool.c:62-64 | a destroyer that finds no worker alive, or an exit lost, is never woken |
| ThreadPool.DestroyReturns | src/thread_pool.c:62-70 | in every other case some run lets it return |
| ThreadPool.DestroyReturnsWhen | src/thread_pool.c:62-70 | so it can return if and only if a worker is alive and no exit was lost |
| ThreadPoolDrain.DrainBounded | src/thread_pool.c:62-72 | while the pool is drained, every run of workers that leave when told takes at most the steps they have left: finishing the task in hand and leaving |
| ThreadPoolDrain.DrainEnds | src/thread_pool.c:62-72 | and when such a run has come to rest, tp_destroy has been signalled |
| ThreadPoolDrain.WorkerGoesOn | src/thread_pool.c:164-198 | a worker in its slot can always leave when told, take a waiting task, begin and finish it |
| ThreadPoolDrain.ManagerGoesOn | src/thread_pool.c:113-149 | the manager has a step in every state but the last, and stops at its next test after the shutdown |
| ThreadPoolRuns.LostUpdate | src/thread_pool.c:126-126 | a run in which an exit between reading and writing num_live is lost |
| ThreadPoolRuns.BelowMinimum | src/thread_pool.c:134-142 | a run in which a stale snapshot takes the pool below its minimum |
| ThreadPoolRuns.StuckFromCreation | src/thread_pool.c:52-64 | a run from tp_create to a destroyer that is never woken |
| PoolSlots.Slots.Grow | src/thread_pool.c:118-133 | undisturbed, the manager starts exactly the number of workers it adds, in free slots, and leaves the running ones alone |
| PoolSlots.Slots.Leave | src/thread_pool.c:166-179 | a worker leaves exactly when it finds its own enabled slot, and frees only that one |
| AnyModel.EqualIsNormal | src/any.c:201-238 | equality is equality of normal forms; in maps, one-way lookup with equal counts is equality of finite maps |
| AnyModel.EqualIsEquivalence | src/any.c:201-238 | it is reflexive, symmetric and transitive |
| AnyModel.DuplicateEqual | src/any.c:155-199 | a duplicate equals its original exactly when there is no const string at any depth |
| AnyRead.EqualStrings | src/any.c:201-238 | strings are equal when both are const or neither, they are equally long and agree up to their first NUL |
| AnyRead.EqualIntegers | src/any.c:201-238 | integers are equal when type and value are |
| AnyRead.EqualMaps | src/any.c:201-238 | maps are equal when they have the same keys and under each equal values, in whatever order |
| AnyRead.DuplicateSame | src/any.c:155-199 | the duplicate is the one value that is the same at every depth, const strings being plain ones |
| AnyRead.DuplicateText | src/any.c:155-199 | it has the same text |
| AnyText.IsEqual | src/any.c:201-238 | the loops of the comparison decide that equality |
| AnyText.Copy | src/any.c:155-199 | the loops of the duplication build that duplicate |
| AnyText.DecimalLength | src/any.c:545-550 | a 64-bit integer prints in at most 20 characters |
| AnyText.TextFits | src/any.c:271-300 | the text of any value is no longer than the estimate |
| AnyText.EstimateLength | src/any.c:271-300 | the loops compute the estimate as a 32-bit int holds it |
| AnyText.IntEnough | src/any.c:271-300 | that int is the estimate, and so enough for the text, if and only if the estimate is below 2^31; from there to 2^32 it is never enough |
| AnyText.Overrun | src/any.c:596-607 | a value whose int is 513 and whose text has more than 2^32 characters |
| AnyRead.EstimateExact | src/any.c:271-300 | the estimate is the length of the text, and what integers are short of 20 characters, two for each map and one for an empty one |
| AnyRead.DecimalRead | src/any.c:545-550 | the digits read from the left give the integer back, modulo 2^64 when unsigned |
| AnyRead.IntegerText | src/any.c:545-550 | the types 8 to 11 print signed, 12 to 15 unsigned |
| AnyParse.TextReadBack | src/any.c:531-594 | a reader of the tokens gets back every value of nulls, booleans, integers, strings and keys without quotes, sequences and maps |
| AnyParse.SameTextShown | src/any.c:531-594 | so two such values with one text show the same |
| AnyParse.QuotesAmbiguous | src/any.c:551-556 | with quotes two unequal values have one text |
| AnyText.ToStrBuffer | src/any.c:531-594 | writes exactly the text and a terminator at the offset and not a byte beyond |
| AnyText.ToJsonStr | src/any.c:596-607 | while the estimate is below 2^31, the buffer of the estimated size holds text and terminator |
| ConfTree.RemoveNode | src/config.c:384-400 | exactly that node leaves its parent's list, the others keep their order; a node not in the list changes nothing |
| ConfTree.FreeRoot | src/config.c:273-292 | frees the nodes of the subtree in post-order, each while still allocated, and unlinks the root from its parent; a root missing from its parent's list leaves that list alone |
| ConfTree.FreeDetached | src/config.c:278-291 | the child list is empty when the loop over the children ends |
| ConfTree.PostOrderCounts | src/config.c:273-292 | post-order contains each node of the subtree exactly as often as the subtree does |
| ConfPath.LookupChild | src/config.c:294-303 | the first child of that name |
| ConfPath.GetNode | src/config.c:305-326 | descends by the dot-separated names, null when one is missing or the path is too long |
| ConfPath.FillPathName | src/config.c:28-65 | the buffer holds the longest prefix of the path that fits, with a terminator |
| ConfPath.PathPieces | src/config.c:39-50 | a child of a sequence adds its name in brackets, one of a mapping after a dot, or bare below the root |
| ConfPath.FilledIs | src/config.c:28-65 | the number returned is the length of the first path on the way that fills the buffer, or of the whole path |
| ConfPath.FilledWhole | src/config.c:28-65 | a result below len - 1 means that the whole path was written |
| ConfPath.FilledFits | src/config.c:28-65 | a path that fits the buffer with its terminator is written whole |
| ConfPath.PathFindsNode | src/config.c:28-65 | under mappings, with dot-free names that no earlier sibling has, the path written for a node leads to that node |
| ConfPath.PathAndBack | src/config.c:28-326 | writing the path and looking it up returns the very node when the path fits |

## Left out

- Allocation failure, logging, thread names, curl, sockets, host callbacks, and the files `src/main.c`, `src/instance.c`, `src/mqtt_handler.c`, `src/callbacks.c`, `src/global.c`, `src/if_helper.c`, `src/timer_manager.c`: no algorithm of their own.
- `rb_augment_*` (src/rbtree.c:223-273): unused.
- Parent and colour are two fields of a node; `RbPacking` shows that the packed word, of 64 or 32 bits, behaves like two fields.
- `container_of` is a table from nodes to entries, and an iterator's map pointer is the receiver of the method. Ghost parameters give each tree method the place it works at.
- Freed memory of map entries; `keycomp_int` of src/map.c:36-44, which compares unsigned pointers; copying and freeing of keys and values.
- Aes.XorBytes: requires that overlapping windows of one array be disjoint, as in all its calls. The vector is an array of its own.
- AesModes.DeletePadding: requires a non-empty buffer, because the source reads the byte before an empty one, and an input on which the scan ends.
- AesModes.Decrypt: requires a length divisible by 16, as the header demands.
- Cson: text parsing and printing are the JSON library's; a JSON tree passes unchanged, and looking up a name in anything but an object finds nothing. Doubles are exact reals with the rounding of integers modelled; NaN and infinities do not occur. Strings hold no NUL. The integer value that the JSON library keeps for an item that is not a number is 1 for true and 0 otherwise.
- Cson: struct memory is a value per table row, so overlapping offsets and the bytes of too-small items are not modelled; an array row refers to its item table by number, an object row to an earlier table. Paths that leave the C language (the faulty default of object rows, releasing an unset pointer, reading past an array, a double of exactly 2^63 converted to an integer) end in `Wild`, `Undefined` or `Unspecified`.
- `csonLoopProperty`, printing and freeing of properties (src/cson.c:720-782).
- Mqtt: the library's answers and callbacks are parameters of the steps; topics starting with `$` (section 4.7.2) are not special, as in the source. `connlost` clears the list without the mutex; a message arriving at that moment is not modelled. Removing the first list item frees an interior pointer in the source; here the item just leaves the list.
- MqttClient.MqttInstance.Publish: runs its parts one after the other; interleaved, they are methods of their own and steps of the state machine.
- MqttClient.MqttInstance.OnConnect: runs its two parts one after the other; what happens between them, the caller's callback included, is covered by the steps of the state machine.
- MqttClient.MqttInstance.DrainPending: excludes messages that publish calls append without the mutex (src/mqtt.c:591) while it runs; the state machine has them (`Mqtt.RunDrainsAll`), the linked queue written by two threads at once is not modelled.
- MqttHistory.ReturnsMean: takes the library's codes to be zero or negative, as contrib/paho.mqtt.c/MQTTAsync.h defines them.
- Mqtt: `mqtt_start` and `mqtt_stop` are one step each, as is the publish call's look at `running` with the append after it.
- Deque: `emplace_front`, `pop_back`, the move operations and the `prev` links beyond their assignment.
- ThreadPool: a worker is identified with its slot, so reuse of thread identifiers is not modelled; spurious wake-ups of `tp_destroy` are not modelled. A worker told to exit that does not find its slot goes on, as in the source.
- ThreadPool.DestroyReturns: shows that a run exists, not that the scheduler takes it; `ThreadPoolDrain` bounds all runs of workers that find their slots.
- Any: floats, custom pointers, reading and writing YAML; `any_append`, `any_map_add` and `any_free`. A map's entries are a sequence in key order. Lengths stay below 2^24, where the length part of the type word ends.
- AnyText.EstimateLength: its sums wrap, where overflow of a signed sum is undefined in C.
- AnyText.ToJsonStr: requires an estimate below 2^31; otherwise the source may write past its buffer (`AnyText.Overrun`).
- AnyText.ToStrBuffer: counts without bound, where the source counts in an int.
- ConfTree: names and kinds of nodes never change.
- `conf_get_node_or_create`, `conf_set` and `conf_dump` (src/config.c:331-382): the loop guard of the first dereferences a null pointer on the last name, so set-then-get does not hold.
- Paths through sequence nodes are written as `[index]`, which lookup does not understand; the round trip is for mappings only.
