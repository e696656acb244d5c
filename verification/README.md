# Secure messenger: ratchet and wire formats

A Dafny 4.11 model of the end-to-end encryption core of the messenger (Go client) and of the
binary formats it shares with its server (Elixir), with proofs about whole runs rather than single
calls. `dafny verify dfyconfig.toml` checks everything.

## What is modelled

| file | module | part of the system |
|---|---|---|
| Basics.dfy | Basics | byte strings, `Option`, `Result` |
| Primitives.dfy | Crypto | X25519, AES-GCM, HMAC and HKDF as arbitrary functions under laws |
| Hkdf.dfy | Hkdf | HKDF-SHA512 as coded, and RFC 5869 |
| Schedule.dfy | Schedule | the key schedule in terms of the HMAC alone |
| Chain.dfy | Chain | one epoch's key chain as a value, in closed form |
| ChainRuns.dfy | ChainRuns | runs of one message ratchet: accounting, refusal, confluence |
| Channel.dfy | Channel | one epoch between two ratchets over a bad network |
| Retired.dfy | Retired | late messages to a retired epoch, under Go's struct-copy semantics |
| MessageRatchet.dfy | Ratchet | the `MessageRatchet` object and its shared skipped-key map |
| Party.dfy | Parties | one party's Diffie-Hellman ratchet and epoch choice as a value |
| DHRatchet.dfy | DHRatchets | the `DHRatchet` object |
| Message.dfy | Messages | `Message.Encrypt` and `Message.Decrypt` on those objects |
| Windows.dfy | Windows | the window of retired epochs over every run of one party |
| Turns.dfy | Turns | where each side stands in a conversation of many turns |
| Agreement.dfy | Agreement | two parties, every permitted run |
| Inbox.dfy | Inbox | what the two parties read over a whole run |
| Guards.dfy | Guards | the arrival guard, and the messages it leaves out |
| Witnesses.dfy | Witnesses | runs that reach the failures of the code |
| IntCodec.dfy | IntCodec | 8-byte integers, client and server |
| Packets.dfy | Packets | packets, both directions |
| Framing.dfy | Framing | the byte stream: 8-byte writer, 4-byte framed reader |
| MessageList.dfy | MessageList | message bodies, message lists, message requests |
| Transport.dfy | Transport | the ratchet and the wire together, end to end |
| Correlation.dfy | Correlation | concurrent `SendReceive` calls and the listener |

The ratchet is modelled twice. The classes follow the Go code statement by statement: fields, loops,
the map that retired copies share. The values in Chain.dfy and Party.dfy say what each call does to
the abstract state, against one reference notion, `MessageKey(p, root, i)`. Each method's
postcondition equates its new state and its result with the value-level transition, also when a key
exchange fails and two ratchets come to share a map. The theorems are about the values, so they
carry over to the objects.

`Chain.LastIndex` gives `PreviousIndex` its range: it starts at -1 and never falls.

Inputs the Go code takes from outside (random nonces, new key pairs, the token lookup, message
arrival) are parameters. A slice panic is a value: `ShortCiphertext` in `Chain.Failure`, `Panic` in
`MessageList.Parsed`, `None` from `MessageList.ParseMessageData`.

## Guards of the two-party theorem

`Agreement` starts from one side created as `Sending` and one as `Receiving`. `Enabled` states what a
run may do: a side sends whenever it likes, under an unused key pair whose exchange succeeds if that
starts a new turn, and a message arrives only while its turn is kept and not between the receiver's
answer and the peer's next turn. Crossing messages, loss, reordering and duplication are otherwise
free: a message sent before the peer's answer was seen is read if it arrives after the peer has
followed the next turn. `GuardExact` shows that the arrival guard is exactly the condition under
which the code looks up the right epoch. Outside it, `AnsweredTurnMisread` says what becomes of a
message of the turn just answered, `LeftTurnMisread` of the turn that has just left the window, and
`OldTurnMisread` of every older one; `Witnesses` has runs that reach each case. The guards never stop
a conversation: `SendExact` says that sending is always open and when it needs an unused key pair,
and `LatestArrives` that the latest turn's messages may always arrive and then be answered.

## Where the code falls short of a plain reading

- `expand` never refuses a length; past 255 blocks its counter wraps, so it agrees with RFC 5869
  exactly up to 16320 bytes (`Hkdf.ExpandConforms`).
- A retired epoch forgets indexes beyond the one it had reached: such a late message is accepted
  every time it is repeated (`Retired.LateRefusal`, `Retired.LateReplay`).
- So in a conversation a message can be read twice, exactly if its epoch had retired before reaching
  its index (`Inbox.ReadOnce`, `Inbox.ReadAgainExact`); seven events lead there
  (`Witnesses.LateMessageReadTwice`).
- A party that has answered looks up the turn it answered in its own sending epoch
  (`Turns.LookupExact`, `Guards.AnsweredTurnMisread`). If both sides send their first message before
  either arrives, the message of the side created as `Sending` is refused as already processed though
  it has not been read (`Witnesses.CrossingLosesMessage`).
- Two parties both created as `Sending` share one chain and refuse each other's first messages
  (`Witnesses.InitiatorsCollide`).
- A message of a turn older than the window is opened with a wrong key or starts an epoch that the
  peer does not know (`Guards.LeftTurnMisread`, `Guards.OldTurnMisread`); conversations that go on to
  turn 11 and turn 13 lead there (`Witnesses.LeftTurnReached`, `Witnesses.OldTurnReached`).
- After a failed key exchange `RKCycle` has already filed the current ratchet as retired, and the two
  share one skipped-key map (`Parties.Shares`, `Messages.Message.DecryptCurrent`). The newest retired
  epoch then repeats the current one, and a window that was not full is no longer the last epochs
  (`Windows.FailureRepeatsEpoch`, `Windows.WindowExact`, `Witnesses.FailureReached`).
- For acknowledgements and errors the client sends credentials that the server takes for data, and
  packets with a body below 25 bytes never reach the decoder (`Packets.RequestRoundTrip`,
  `Framing.ServerDecodesStream`).
- A message request means what was asked exactly for a 16-byte contact, or none, and a non-negative
  timestamp (`MessageList.RequestMeaning`).
- A response looked up for a call that is not waiting for it, as when its timeout has just fired,
  leaves the listener holding the mutex in every continuation (`Correlation.OfferExact`); four steps
  lead there (`Correlation.StuckReached`).

The prose documents differ from the code in places: encryption_flow.md has two key pairs and
signatures where the code has one key pair and a MAC, and server_endpoints.md has 20-byte ids and
other packet layouts. The model follows the code.

## Model

| member | source | states |
|---|---|---|
| Hkdf.Expand | client/internal/contact/ratchet/hkdf.go:31-52 | the loop returns exactly `length` bytes, the prefix of its block stream, and never the short-buffer error |
| Hkdf.Derive | client/internal/contact/ratchet/hkdf.go:10-29 | extract then expand; no length makes it fail, so its callers' error branches are dead |
| Hkdf.ExpandConforms | client/internal/contact/ratchet/hkdf.go:31-52 | equals HKDF-Expand of section 2.3 of RFC 5869 if and only if the length is at most 255*64 |
| Hkdf.ExpandPrefix | client/internal/contact/ratchet/hkdf.go:31-52 | a shorter output is a prefix of a longer one |
| Hkdf.DerivedBlock | client/internal/contact/ratchet/hkdf.go:10-29 | a 64-byte key is the HMAC of the info and one counter byte under the extracted key, sections 2.2 and 2.3 of RFC 5869 |
| Schedule.MessageKeySchedule | client/internal/contact/ratchet/mratchet.go:41-65 | one chain step in terms of the HMAC: the first half of its output is the message key, the second the next seed, with a zero salt and the info Chain |
| Schedule.SealSchedule | client/internal/contact/ratchet/mratchet.go:71-96 | a sealed message in terms of the HMAC, AES-GCM and HMAC-SHA256: which half of the derived key encrypts, which authenticates, and what |
| Schedule.OpenSchedule | client/internal/contact/ratchet/mratchet.go:135-160 | what opening any body gives and why it fails: below 12 bytes, a wrong hash, or a refusal of AES-GCM |
| Schedule.RootSchedule | client/internal/contact/ratchet/dhratchet.go:94-106 | the new root and child key are the halves of the HMAC output, salted with the exchange output, with the info Ratchet |
| Crypto.SharedSecretCommutes | client/internal/crypt/keys.go:46-54 | for genuine key pairs both ends of an exchange compute the same secret or both fail, by the assumed law of X25519 |
| Chain.OpenInvertsSeal | client/internal/contact/ratchet/mratchet.go:67-97 | a message opened with the key that sealed it gives its plaintext |
| Chain.OpenExact | client/internal/contact/ratchet/mratchet.go:135-160 | a body opens to a plaintext exactly if it is that plaintext sealed under the key with some 12-byte nonce |
| Chain.ReceiptExact | client/internal/contact/ratchet/mratchet.go:99-160 | a coherent ratchet gives a plaintext exactly if the index is not refused and the body is that plaintext sealed under the key of the index |
| Chain.ReceivedCoherent | client/internal/contact/ratchet/mratchet.go:99-133 | Decrypt at any index keeps the chain key at the seed after PreviousIndex and every stored key the key of its index |
| Chain.SentCoherent | client/internal/contact/ratchet/mratchet.go:67-97 | Encrypt keeps the same invariant |
| Ratchet.MessageRatchet.constructor | client/internal/contact/ratchet/mratchet.go:27-38 | a new ratchet is a fresh chain over its root key with its own empty map |
| Ratchet.MessageRatchet.CKCycle | client/internal/contact/ratchet/mratchet.go:41-65 | both branches walk one uniform chain: call n returns message key n and leaves the seed of step n+1 |
| Ratchet.MessageRatchet.Encrypt | client/internal/contact/ratchet/mratchet.go:67-97 | the message carries index PreviousIndex+1, sealed under the key of that index |
| Ratchet.MessageRatchet.DecryptWithKey | client/internal/contact/ratchet/mratchet.go:135-160 | MAC check, then decryption, as one total outcome |
| Ratchet.MessageRatchet.SkipTo | client/internal/contact/ratchet/mratchet.go:110-121 | the skip loop stores exactly the keys between PreviousIndex and the index |
| Ratchet.MessageRatchet.Decrypt | client/internal/contact/ratchet/mratchet.go:99-133 | the stepwise code performs the closed-form transition and outcome, consuming the index even if the MAC fails |
| ChainRuns.RunAccounted | client/internal/contact/ratchet/mratchet.go:67-133 | in every run of Encrypt and Decrypt calls, the chain is coherent, no index is handed out twice, and 0..PreviousIndex is split between handed-out and stored indexes |
| ChainRuns.KeyConservation | client/internal/contact/ratchet/mratchet.go:100-131 | stored plus used keys number PreviousIndex+1 |
| ChainRuns.RefusedIffHandedOut | client/internal/contact/ratchet/mratchet.go:99-132 | an index is refused as already processed if and only if it was handed out earlier in the run |
| ChainRuns.RefusalExact | client/internal/contact/ratchet/mratchet.go:99-126 | in every run, which indexes Decrypt refuses and why, from the history: negative, handed out, or more than 100 above the next |
| ChainRuns.RunReceiptExact | client/internal/contact/ratchet/mratchet.go:99-160 | in every run a plaintext is given exactly for an index not refused and a body sealed under its key; any altered or forged body gives an error |
| ChainRuns.StoreBound | client/internal/contact/ratchet/mratchet.go:110-121 | n calls store at most n*MaxSkip keys |
| ChainRuns.EncryptIndexIncreases | client/internal/contact/ratchet/mratchet.go:67-97 | each Encrypt takes an index above all handed out before |
| ChainRuns.DeliverSettled | client/internal/contact/ratchet/mratchet.go:99-133 | after any accepted deliveries, PreviousIndex is the maximum delivered, the store is exactly the missing indexes below it, the chain is coherent |
| ChainRuns.Confluence | client/internal/contact/ratchet/mratchet.go:99-133 | two accepted delivery sequences of the same indexes end in the same state |
| ChainRuns.InOrderWithinSkip | client/internal/contact/ratchet/mratchet.go:110-115 | if some order of the indexes stays within MaxSkip, in-order delivery does |
| ChainRuns.SameAsInOrder | client/internal/contact/ratchet/mratchet.go:99-133 | every accepted order, with duplicates, ends in the state of in-order delivery |
| Channel.ArrivalOutcome | client/internal/contact/ratchet/mratchet.go:67-133 | the first arrival of a message gives its plaintext; a later one is refused and changes nothing |
| Channel.ExactlyOnce | client/internal/contact/ratchet/mratchet.go:67-133 | over every interleaving of sends and arrivals within the skip bound, the inbox holds each arrived plaintext once, in order of first arrival, and nothing is reported |
| Channel.AnySchedule | client/internal/client/client.go:286-300 | over every interleaving, however far it skips, the inbox holds the plaintexts of the indexes taken, each once, and exactly the arrivals that skip too far are reported |
| Retired.LateRunCoherent | client/internal/contact/ratchet/dhratchet.go:113-124 | any late messages through the copy keep every entry of the shared map the right key |
| Retired.LateOutcome | client/internal/contact/message/message.go:179-189 | a late message opens to its plaintext or is refused by its index, never with a wrong key |
| Retired.LateRefusal | client/internal/contact/ratchet/dhratchet.go:113-124 | exactly which late indexes are refused, from the history before and after retirement |
| Retired.LateReplay | client/internal/contact/ratchet/dhratchet.go:113-124 | an accepted late index is refused the second time if and only if the epoch had passed it when it retired |
| Parties.AfterDecryptCoherent | client/internal/contact/message/message.go:168-206 | receiving any message at all, also one whose exchange fails, leaves every current and retired chain with the right keys |
| Parties.OutcomeExact | client/internal/contact/message/message.go:168-206 | a party reads a plaintext exactly if the chain it opens with does not refuse the index and the body is that plaintext sealed under its key |
| DHRatchets.DHRatchet.NewDHRatchet | client/internal/contact/ratchet/dhratchet.go:30-49 | both sides' initial state, or the end of the program if the exchange fails |
| DHRatchets.DHRatchet.Retire | client/internal/contact/ratchet/dhratchet.go:78-86 | the current ratchet is filed as a copy sharing its map, and the window keeps the last ten |
| DHRatchets.DHRatchet.EnterEpoch | client/internal/contact/ratchet/dhratchet.go:94-106 | the root key advances by the exchange output and the new chain starts from it with its own map |
| DHRatchets.DHRatchet.RKCycle | client/internal/contact/ratchet/dhratchet.go:73-107 | the whole transition, successful or failed, and which maps are shared afterwards |
| DHRatchets.DHRatchet.GetPrevRatchet | client/internal/contact/ratchet/dhratchet.go:113-124 | a new object equal to the oldest match, sharing its map; null exactly if none matches |
| Messages.Message.Prepare | client/internal/contact/message/message.go:135-147 | answering flips the state, changes the key pair and enters a new epoch |
| Messages.Message.Encrypt | client/internal/contact/message/message.go:134-166 | the ratchet and the message after sending, for either role and either outcome of the exchange |
| Messages.Message.DecryptCurrent | client/internal/contact/message/message.go:169-177 | only the current epoch changes, and after a failed exchange its newest retired copy with it |
| Messages.Message.DecryptKept | client/internal/contact/message/message.go:179-189 | of the retired epoch only the stored keys change |
| Messages.Message.Follow | client/internal/contact/message/message.go:191-194 | an unknown key starts a receiving epoch |
| Messages.Message.Decrypt | client/internal/contact/message/message.go:168-206 | the ratchet, the error and the stored plaintext after receiving, in all three cases |
| Windows.CycleKeepsWindow | client/internal/contact/ratchet/dhratchet.go:73-107 | one successful cycle slides the window and folds one more exchange output into the root key |
| Windows.WindowOverRuns | client/internal/contact/ratchet/dhratchet.go:73-107 | after every run of one party in which exchanges succeed and received keys are not empty, whatever else it is sent, the window is the last min(RatchetIndex, 10) epochs in order and epoch k has the k-fold root key |
| Windows.ReadExact | client/internal/contact/message/message.go:168-206 | after every such run, whatever it was sent, a party reads a plaintext exactly for an index not refused and a body sealed under the key of that index in one of its own epochs |
| Windows.RetiredExact | client/internal/contact/ratchet/dhratchet.go:78-86 | an epoch is retired exactly if it has a foreign key, and the window keeps the last ten |
| Windows.FailureRepeatsEpoch | client/internal/contact/ratchet/dhratchet.go:73-92 | after a failed exchange the newest retired epoch repeats the foreign key and root key of the current one |
| Windows.WindowExact | client/internal/contact/ratchet/dhratchet.go:73-107 | while fewer than ten epochs are retired, and for a key that is not empty, the window property holds after an action, for some secret and exchange outputs, if and only if its exchange did not fail |
| Windows.FullWindowFailure | client/internal/contact/ratchet/dhratchet.go:73-92 | a full window can be right after a failed exchange only if some exchange output derives the root key from itself |
| Witnesses.FailureReached | client/internal/contact/message/message.go:191-203 | a new party and a 32-byte key with which the exchange fails, after which no secret and outputs make the window right |
| Windows.ReachedGrows | client/internal/contact/ratchet/dhratchet.go:113-124 | no action of a party whose exchange succeeds and whose key is not empty lowers the index an epoch has reached, and none changes it once the epoch is retired |
| Turns.LookupExact | client/internal/contact/message/message.go:168-194 | which epoch the lookup finds for any turn of the peer, in either role |
| Turns.TakeTurn | client/internal/contact/message/message.go:136-147 | answering puts a side at the next turn's epoch with the conversation's root key |
| Turns.FollowTurn | client/internal/contact/message/message.go:191-194 | following puts the other side at the same epoch with the same root key |
| Turns.RootsAgree | client/internal/contact/ratchet/dhratchet.go:88-106 | every epoch a side keeps has the root key of its turn |
| Agreement.ArriveCurrent | client/internal/contact/message/message.go:169-177 | a message of the current turn gives the expected outcome and keeps the side's invariant |
| Agreement.ArriveKept | client/internal/contact/message/message.go:179-189 | the same for a message of a kept turn |
| Agreement.ArriveNext | client/internal/contact/message/message.go:191-203 | the same for the first message of a new turn |
| Agreement.RunHolds | client/internal/contact/message/message.go:134-206 | the two-party invariant holds after every permitted run |
| Agreement.SameRoots | client/internal/contact/ratchet/dhratchet.go:73-107 | after every permitted run the sides are at most one epoch apart and agree on the root key of every epoch both keep |
| Agreement.DeliveryOutcome | client/internal/contact/message/message.go:168-206 | every permitted delivery gives the message's own plaintext or a refusal decided by indexes alone, never a MAC or cipher failure |
| Agreement.CurrentTurnDelivery | client/internal/contact/message/message.go:168-203 | a message of the current or next turn decrypts the first time unless it skips more than 100 keys, and is refused once delivered |
| Agreement.WindowLookup | client/internal/contact/ratchet/dhratchet.go:113-124 | a receiving party finds each kept turn in that turn's receiving epoch, not the later sending one with the same key |
| Agreement.SendExact | client/internal/contact/message/message.go:134-147 | in every permitted run sending is open to both sides; a side needs an unused key pair exactly if it has followed the latest turn, which is not its own |
| Agreement.LatestArrives | client/internal/contact/message/message.go:168-206 | in every permitted run any message of the latest turn may arrive, its receiver is then at that turn, and it may answer under an unused key pair |
| Inbox.ReadWasSent | client/internal/contact/message/message.go:168-206 | in every permitted run everything a party reads was sent by its peer at that turn and index, with that plaintext |
| Inbox.ReadOnce | client/internal/contact/ratchet/dhratchet.go:113-124 | in every permitted run a message is read once, unless its epoch had retired before reaching its index |
| Inbox.ReadAgainExact | client/internal/contact/ratchet/dhratchet.go:113-124 | a message that was read gives its plaintext again exactly if its epoch had retired before reaching its index; otherwise it is refused as already processed |
| Witnesses.LateMessageReadTwice | client/internal/contact/ratchet/dhratchet.go:113-124 | a run of seven events in which a message is read twice, from every start that has two unused key pairs |
| Witnesses.RepeatReached | client/internal/contact/ratchet/dhratchet.go:113-124 | such a run exists |
| Guards.GuardExact | client/internal/contact/message/message.go:170-181 | the lookup is right exactly when the arrival guard holds |
| Guards.AnsweredTurnMisread | client/internal/contact/message/message.go:170-176 | outside the guard the message is opened with a key of the next epoch and consumes an index of the sending chain |
| Guards.LeftTurnMisread | client/internal/contact/ratchet/dhratchet.go:113-124 | a sending party opens a message of the turn that has just left the window with a key of the sending epoch after it |
| Guards.OldTurnMisread | client/internal/contact/message/message.go:191-194 | a message of any older turn starts a new receiving epoch, if the exchange with its old key succeeds |
| Witnesses.CrossingLosesMessage | client/internal/contact/message/message.go:136-177 | if both sides send before either message arrives, the first side's message is refused as already processed though it has not been read |
| Witnesses.LossReached | client/internal/contact/message/message.go:136-177 | such a run exists |
| Witnesses.InitiatorsCollide | client/internal/contact/ratchet/dhratchet.go:30-49 | two parties both created as sending share one chain, and each refuses the other's first message once it has sent its own |
| Witnesses.TurnsReached | client/internal/contact/message/message.go:134-206 | conversations to any turn below 254 exist |
| Witnesses.LeftTurnReached | client/internal/contact/ratchet/dhratchet.go:78-86 | a run to turn 11 after which the first message is handed to the sending epoch of turn 1 |
| Witnesses.OldTurnReached | client/internal/contact/message/message.go:191-194 | a run to turn 13 after which the first message starts a new epoch |
| IntCodec.IntToBytes | client/internal/utils/utils.go:7-14 | the loop writes the big-endian two's-complement digits of any 64-bit integer |
| IntCodec.BytesToInt | client/internal/utils/utils.go:16-22 | the Horner loop gives the big-endian value reduced to 64 bits, for any length |
| IntCodec.EncodersAgree | server/lib/tcp_server/utils.ex:81-91 | the server's recursion writes the client's bytes for every non-negative 64-bit integer |
| IntCodec.DecodersAgree | server/lib/tcp_server/utils.ex:93-97 | the two decoders agree exactly on values below 2^63 |
| IntCodec.ClientRoundTrip | client/internal/utils/utils.go:7-22 | every 64-bit integer survives the client's encoding and decoding |
| IntCodec.ServerRoundTrip | server/lib/tcp_server/utils.ex:81-97 | a value survives the server's exactly if it is below 2^64 |
| IntCodec.ReencodeEight | server/lib/tcp_server/utils.ex:81-97 | either encoder undoes its decoder on eight bytes |
| Packets.WritePayload | client/internal/tcpclient/packet.go:39-62 | the buffer grown step by step is the packet, or the error, of Packets.WriteExact and Packets.WrittenLayout |
| Packets.WriteExact | client/internal/tcpclient/packet.go:39-55 | the client writes a packet exactly for data up to 1048576 bytes with both credentials set, or a login, signup or key request; which error it gives otherwise |
| Packets.WrittenLayout | client/internal/tcpclient/packet.go:44-62 | the position of the length, version, type, id, credentials and data in the written bytes |
| Packets.CodesExact | server/lib/tcp_server/utils.ex:35-67 | a type byte is understood as a type exactly if it is that type's client code |
| Packets.CodesAgree | server/lib/tcp_server/utils.ex:35-50 | client and server number the types alike |
| Packets.RequestRoundTrip | server/lib/tcp_server/data_handler.ex:163-199 | for every type byte, every data length and every outcome of the token lookup, what the server decodes from the body the client writes, or why it refuses |
| Packets.AcceptExact | server/lib/tcp_server/data_handler.ex:15-40 | the server accepts a frame exactly if it is long enough for its type and the lookup of bytes 18 to 66 verified them, where the type carries credentials |
| Packets.AcceptedLayout | server/lib/tcp_server/data_handler.ex:163-199 | the position of type, id, sender and data in an accepted frame |
| Packets.RefusalReason | server/lib/tcp_server/data_handler.ex:163-199 | the reason a refused frame gets |
| Packets.ReplyExact | server/lib/tcp_server/data_handler.ex:241-266 | when the server builds a reply and when the client can parse one |
| Packets.ResponseRoundTrip | server/lib/tcp_server/data_handler.ex:241-266 | the client recovers type, id and data of every framed reply |
| Framing.ClientStream | server/lib/tcp_server/acceptor.ex:14 | the framed reader sees an empty frame and then the body for each packet, and nothing is left over |
| Framing.ServerHandlesStream | server/lib/tcp_server/data_handler.ex:15-16 | the server handles exactly the packets written, in order, if and only if none is below 25 bytes |
| Framing.ServerDecodesStream | server/lib/tcp_server/data_handler.ex:15-40 | from the packets the client writes the server obtains, through stream, frames and decoder, the meaning of each packet not below 25 bytes, in order and nothing else |
| Framing.AllDecodedExactly | server/lib/tcp_server/data_handler.ex:15-16 | the meanings obtained are those of all packets sent if and only if none is below 25 bytes |
| Framing.ChunkingIrrelevant | server/lib/tcp_server/acceptor.ex:14 | the frames do not depend on how the stream is cut, and the bytes left over hold no complete frame |
| MessageList.Payload | client/internal/contact/message/message.go:124-132 | the body the client sends: public key, index, ciphertext, hash |
| MessageList.ParseMessagesData | client/internal/contact/message/message.go:52-89 | the offset loop terminates and computes the list, the error or the panic |
| MessageList.PushedRoundTrip | client/internal/contact/message/message.go:91-122 | what the server pushes for a message parses to that message |
| MessageList.ListRoundTrip | server/lib/tcp_server/data_handler.ex:131-136 | the client recovers the same messages in the same order from the server's fold, with no error |
| MessageList.ListExact | client/internal/contact/message/message.go:52-89 | a byte string parses without error to a list exactly if the list can be sent and the bytes are the server's fold of it |
| MessageList.TailExact | client/internal/contact/message/message.go:52-89 | a list followed by anything that does not begin with a whole message: the error, the messages kept, or the panic |
| MessageList.EveryInput | client/internal/contact/message/message.go:52-89 | every input is a list followed by such a rest, so TailExact gives the outcome for all inputs |
| MessageList.Truncated | client/internal/contact/message/message.go:60-68 | what the server's fold cut at any byte parses to |
| MessageList.BodyLayout | client/internal/contact/message/message.go:91-132 | the position of key, index, ciphertext and hash in a message body |
| MessageList.EntryLayout | server/lib/tcp_server/data_handler.ex:131-136 | the position of length, sender and body in a list entry |
| MessageList.RequestMeaning | server/lib/tcp_server/data_handler.ex:118-127 | the server reads the request meant exactly for a 16-byte contact, or none, and a non-negative timestamp |
| MessageList.RequestRead | server/lib/tcp_server/data_handler.ex:118-127 | what the server reads from a request of any size |
| Transport.SendRoundTrip | server/lib/tcp_server/data_handler.ex:84-85 | a send request with both credentials and at most 1 MB is written, and from its bytes the server takes the contact, the verified sender and the payload |
| Transport.StoredExact | server/lib/tcp_server/data_handler.ex:84-85 | which frames are stored as a message, for whom, from whom and with what data: exactly type 7 with verified credentials and a receiver |
| Transport.PushedArrives | server/lib/tcp_server/data_handler.ex:84-113 | a message of any permitted run, written by the sending client, read from the byte stream, decoded and pushed by the server and parsed by the receiving client, is the envelope that was sent |
| Transport.ListedArrive | server/lib/tcp_server/data_handler.ex:131-136 | messages of any permitted run that the server stored and lists arrive as the envelopes that were sent, in order |
| Correlation.RunHolds | client/internal/tcpclient/tcpclient.go:76-171 | the correlation invariant holds in every interleaving |
| Correlation.Correlated | client/internal/tcpclient/tcpclient.go:101-115 | a call gets at most one packet, with its own id; a packet goes to at most one call and then to no handler |
| Correlation.PendingExact | client/internal/tcpclient/tcpclient.go:132-171 | in every run an id is pending exactly if its call was registered, not cleaned up, and its response not cleared; a call whose payload failed keeps its entry |
| Correlation.DispatchExact | client/internal/tcpclient/tcpclient.go:101-115 | the next packet is offered to the open call with its id, whatever handlers there are, and called on a handler exactly if there is no such call |
| Correlation.LateResponse | client/internal/tcpclient/tcpclient.go:101-115 | a response after the clean-up of its call, or after an earlier response was cleared, is offered to no one |
| Correlation.HandlerExact | client/internal/tcpclient/tcpclient.go:101-115 | over every run a packet reaches a handler exactly if no call was open for it and a handler was registered |
| Correlation.PhaseExact | client/internal/tcpclient/tcpclient.go:132-171 | in every run, where each call is, from the steps it took: when it waits, when it has timed out, when it returns with and without a packet |
| Correlation.OfferExact | client/internal/tcpclient/tcpclient.go:101-107 | an offered packet can still be taken exactly if the call is waiting |
| Correlation.StuckReached | client/internal/tcpclient/tcpclient.go:95-115 | a run of four steps in which the listener offers a packet to a call whose timeout has fired |

## Left out

- Channel.ExactlyOnce: of the client's handling of an incoming message only the tolerance of already processed indexes is kept; contact lookup, storage and its failures are not modelled. Whole conversations are the subject of Agreement and Inbox.
- Windows.WindowOverRuns: says nothing of what follows a failed exchange, for which see Windows.WindowExact, or an empty received key, whose epoch the code does not keep.
- Windows.WindowExact: covers windows that are not full; for a full one Windows.FullWindowFailure gives a necessary condition.
- Windows.ReachedGrows: needs the action's exchange to succeed and its key not to be empty, because a failed exchange renumbers the kept epochs.
- Messages.Message.Follow: takes the received key as it is; a nil key in the header, which the client's parser never makes, would make `RKCycle` use the current foreign key.
- Messages.Message.Decrypt: the same.
- Transport.PushedArrives: the server's database, lookups of receivers and connections are taken to succeed, and the indexes to be below 2^63.
- Crypto.SharedSecretCommutes: rests on the law assumed of X25519, whose computation is not modelled.
- The insides of X25519, AES-GCM and HMAC, and random generation: functions and parameters under the laws of `Crypto.RawPrimitives.Lawful`. With the toolchain of client/go.mod `rand.Read` does not return errors.
- Runs in which a message arrives outside the guard, or with two initiating sides: Guards and Witnesses say what the code does with such a message, but not what the conversation does afterwards. The theorems of ChainRuns, Retired and Windows still apply to each side.
- Calls on a `DHRatchet` after a failed key exchange: the call in which the exchange fails is modelled, its successors are not, because two ratchets then share a map.
- Aliasing of byte slices: keys, hashes and packet data are immutable values. In the Go code, parsed ids and keys point into the packet buffer, and the append in `SendMessage` can write into it.
- The sender and receiver ids and the header's PrevCount of a `Message` object, which neither Encrypt nor Decrypt reads.
- The 64-bit width of message indexes inside a chain.
- Gob encoding, SQLite and Postgres storage, transactions and migrations.
- Login, signup, key and token bookkeeping and the connection registry: small map updates around database and bcrypt calls.
- Sockets, retries, reconnects, one read per packet, `Send`, and closing the connection. Correlation is a safety statement: no call is promised an answer.
- The user interface and the command-line programs.
