# Verified model of the NAT and IPsec evaluation programs

The repository holds two packet-processing programs: a stateless NAT that encrypts addresses and
ports instead of keeping a connection table (`nat_eval`), and an IPsec gateway (`ipsec_eval`).  This
project models their algorithms in Dafny and proves what they are for.  Code that changes things in
place is modelled by classes and methods over arrays, each proved against a specification function;
the properties are then lemmas about those functions.

| files | what they model |
|---|---|
| `PortGrouping`, `TxBuffer`, `SendPath` | grouping a burst by destination port, the transmit buffers, the whole send path |
| `PrefixSpec`, `NatTable`, `NatBijection`, `NatLoader`, `NatPacket`, `NatAsWritten` | the prefix tables of the NAT, its two lookups, packet translation with any cipher and with FF3 as written |
| `Basics`, `Bits` | shared types; words as naturals, bit by bit |
| `FfLib`, `Ff3`, `Ff3AsWritten`, `Ff3Code` | bit reversal, the FF3 cipher as intended and as written |
| `Rc5`, `ChaCha` | the two other ciphers |
| `MachineWords`, `ChaChaWords`, `ChaChaVectors` | naturals against machine words; the ChaCha20 block on machine words, its known values and its inverse |
| `CryptoModes`, `EspSpec`, `EspRoundTrip`, `EspCode`, `EspTransit`, `EspWire` | ESP in tunnel mode: specification, round trip, code on packet buffers, both ends on one buffer, the bytes on the wire |
| `CryptoQueue`, `CryptoRuns`, `CryptoMapping`, `CryptoCode` | crypto queues: state machine, theorems about all runs, which packets reach which device, code |
| `Gateway`, `GatewayWords`, `GatewayQueues`, `GatewayCode` | sorting a burst by kind and policy around the crypto queues; what each policy word does; which packets reach which crypto device; code |
| `SaTable`, `GatewaySa` | the direct-mapped table of security associations, and the gateway's policy over it |
| `AddrText`, `AddrText6`, `AddrCode` | textual addresses: grammar, parsers, printer |
| `DepthSplit` | an IPv6 prefix as four 32-bit rule fields |

Results that say something about the code beyond its intent:

* **Grouping.**  The run lengths are right for bursts of any length, with one exception that is stated
  exactly: a burst of one to three packets whose first final port is 0xFFFE, the marker for "no port
  yet", leaves the first run length as it happened to be in memory (`FinishAndGroup`, `FooledCanFail`).  It cannot
  happen where ports are indices of configured ports, as `SendPacketsMulti` requires.
* **NAT tables.**  All indices survive translation to an address and back if and only if the prefixes
  are disjoint and the table is in one regime: all prefixes are /8, or none is and the table has at most
  2^24 addresses (`RoundTripIff`).  Outside, index K * 2^24 of a longer prefix is translated to 0.0.0.0.
  With the configured size of 2^26 addresses this leaves only disjoint /8 prefixes (`ConfiguredSize`).
* **Last line.**  The loader takes the sizes of the table from the last line it read, skipped or not; the tables
  are right exactly if that line has an accepted mask length and the kept ones number the addresses without a
  gap (`LoadRtbl`).
* **FF3.**  The decryption routine copies its round input to the buffer that the cipher call then clears,
  where its own comment and the encryption routine use the other one.  The model of the routine
  (`Ff3Decrypt`) has both readings.  With the intended buffer it inverts encryption for every length,
  tweak and round function.  As written it restores a block exactly if two sums of round values agree
  (`AsWrittenIff`), and all blocks exactly if encryption is the same with every half zeroed
  (`RestoresAllIff`).  A round function that ignores its half is enough (`InsensitiveRestores`) but not needed
  (`SensitiveYetRestores`), and with any rounds at all some round function of the code's own form, which sees
  tweak word and round number only xored, is not undone (`AsWrittenFails`, `AsWrittenNeverUndoes`).
* **NAT.**  Replies return, and internal endpoints do not collide, for any cipher that permutes port and host bits
  (`ReplyReturns`, `InternalRestored`, `NoCollision`).  FF3 as intended and an xored key stream are such ciphers
  (`Ff3Permutes`, `StreamPermutes`).  FF3 as written is one exactly if it restores every block
  (`Ff3AsWrittenPermutes`).  For a single reply the condition is exact: the round values added and taken off must
  agree on the right half, and on the left half up to the bits that 10.0.0.0 hides when it is or'ed over the host
  (`AsWrittenReply`).  Up to 25 host bits nothing is hidden; with the configured 26 it is the lowest bit of the left
  half (`ConfiguredReply`), so a reply may return although its block does not (`HiddenBitReturns`).
* **ESP.**  The receiver never reads the outer addresses, TTL, checksum or length, so what was sealed comes
  back whatever happens to them; a congestion mark set in transit is carried inwards.  The last assertion of the
  decapsulation compares the inner packet with the outer header: it fails for packets no longer than that, such
  as 20 bytes in an IPv4 tunnel (`TransitRoundTrip`).  The configuration may pair GCM authentication with a
  cipher that is no counter mode; the two ends then authenticate different ranges with different IVs, and an SA works
  with every key exactly if it is not such a pair (`CarriesIff`).
* **Policies.**  A rule that protects with a configured SPI lets in the packets of that entry and no others, except
  that an SPI divisible by 131072 has slot 0, which the check takes for none: its packets never pass by such a rule
  (`ProtectNamesEntry`).
* **Addresses.**  Both parsers accept exactly a grammar stated independently of them.  It shows the corner
  cases: numbers of a dotted quad may have any number of leading zeros, but inside an IPv6 address the
  first one has at most four digits; a double colon stands for at least two zero bytes.

## Conventions

Words are naturals with explicit reduction; bitwise operators are defined bit by bit in `Bits`.  Addresses
are in host order in the NAT (the conversions before and after cancel) and bytes in network order in ESP
and the SA table.  Packets are identified by numbers where their contents do not matter.  What a device, a
library or a table outside the model decides is an argument, so every statement holds for all decisions:
how many packets a port or crypto device accepts or returns, whether a session is created, whether a
transformation succeeds, what a policy answers.  AES, HMAC, the GCM tag and the FF3 round function are
arbitrary functions; of the block cipher only invertibility is assumed.

The unrolled copy makes one pass too many when a run fills the buffer exactly: it reads up to four
entries behind the run, which may lie behind the 32 slots of the caller.  Such reads give arbitrary values here, and
no port ever sees them.  `IpipInbound` follows the code in deriving the outer header length from
the version alone; `InOp` follows it in using the header length field.  The bytes of the outer IPv4 checksum are
not written by the code and keep what the buffer held.  The payload length of an outer IPv6 header is the length
of the whole packet, as the code stores it.

## Model

| member | source | states |
|---|---|---|
| PortGrouping.Rfc1812Checks | nat_eval/l3fwd_sse.h:60-77 | the wrapping header checks give the bad port exactly to IPv4 packets whose version is not 4, whose header is shorter than 20 bytes or whose total length is below 20; every other packet keeps the port it was given |
| PortGrouping.ProcessX4 | nat_eval/l3fwd_sse.h:87-130 | four packets get their final ports, all others keep theirs |
| PortGrouping.TableRow | nat_eval/l3fwd_sse.h:167-279 | every row of the 16-entry table holds, for its pattern of equal neighbours, the increment of the open run, the lengths of the runs that begin inside, and where the open run is now |
| PortGrouping.PortGroupX4 | nat_eval/l3fwd_sse.h:164-292 | one table-driven step closes the runs that end and leaves the last one open, wherever the run pointer was |
| PortGrouping.FourSteps | nat_eval/l3fwd_sse.h:146-292 | writing the table's values is four scalar grouping steps, up to entries that are no run heads |
| PortGrouping.StepKeepsOpen | nat_eval/l3fwd_sse.h:146-154 | the scalar step keeps the invariant: all finished runs measured, the last one open at the pointer |
| PortGrouping.RunsTile | nat_eval/l3fwd_sse.h:484-498 | a maximal run ends where the next begins or at the end of the burst |
| PortGrouping.DropRepeated | nat_eval/l3fwd_sse.h:443-453 | comparing the last packet of the fours with itself counts it twice in the open run, and taking one off makes that right |
| PortGrouping.GroupInFours | nat_eval/l3fwd_sse.h:412-454 | final ports and open runs after all full groups of four |
| PortGrouping.LastGroup | nat_eval/l3fwd_sse.h:443-453 | the last group of four, its last port repeated |
| PortGrouping.ScalarStep | nat_eval/l3fwd_sse.h:461-475 | one packet of the tail |
| PortGrouping.GroupTail | nat_eval/l3fwd_sse.h:455-475 | the fall-through tail of up to three packets |
| PortGrouping.FinishAndGroup | nat_eval/l3fwd_sse.h:398-484 | for every burst length: the bad port for the packets that fail a check and the given port for the others, in place, and at every run head the length of the maximal run, except where a short burst begins with port 0xFFFE |
| PortGrouping.FooledCanFail | nat_eval/l3fwd_sse.h:455-484 | in that exception the run lengths are wrong for some contents of the uninitialised array |
| TxBuffer.DuffCopy | nat_eval/l3fwd_sse.h:346-362 | the unrolled copy copies n packets, and writes nothing beyond the next multiple of four |
| TxBuffer.CopyEntry | nat_eval/l3fwd_sse.h:347-361 | the entry by fall-through copies n mod 4 packets, or four |
| TxBuffer.TxPort.SendBurst | nat_eval/l3fwd.h:121-139 | the device sees all n packets in order; those it refuses are freed; accepted and refused make up what was offered |
| TxBuffer.TxPort.FlushAndRefill | nat_eval/l3fwd_sse.h:366-392 | a full buffer is sent and the rest of the burst becomes the buffer |
| TxBuffer.TxPort.BufferRun | nat_eval/l3fwd_sse.h:343-392 | the buffered path, below and at the limit |
| TxBuffer.TxPort.SendPacketsX4 | nat_eval/l3fwd_sse.h:317-393 | the whole new state of a port: the direct path, the buffered path, and flush with refill |
| TxBuffer.TxPort.SendSinglePacket | nat_eval/l3fwd.h:142-160 | one packet appended, the buffer sent when full |
| TxBuffer.TxPort.DrainPort | nat_eval/l3fwd_lpm.c:157-165 | what is buffered is sent |
| TxBuffer.SendX4Appends | nat_eval/l3fwd_sse.h:317-393 | whichever way, the port's stream grows by the burst in order and the buffer stays below 32 |
| TxBuffer.SendOneAppends | nat_eval/l3fwd.h:142-160 | the simple form appends one packet |
| TxBuffer.SendOneIsSendX4 | nat_eval/l3fwd.h:142-160 | sending a single packet is sending a run of one |
| TxBuffer.RunWaits | nat_eval/l3fwd_sse.h:317-393 | a run waits exactly if it stays below 32 packets with those that wait and does not meet an empty buffer with 16 or more; otherwise everything that waited is offered |
| TxBuffer.PortIsFifo | nat_eval/l3fwd_sse.h:317-393 | over any sequence of runs, single packets and drains a port is first in, first out: nothing overtaken, lost or duplicated |
| TxBuffer.DrainOffersAll | nat_eval/l3fwd_lpm.c:157-165 | after a drain the buffer is empty and all that was ever sent has been offered |
| SendPath.RunDelivered | nat_eval/l3fwd_sse.h:484-498 | from a run head, the run of the stored length is what the send loop must deliver next, and the next position is a run head |
| SendPath.DeliverRun | nat_eval/l3fwd_sse.h:484-498 | delivering packets of one run one by one is delivering the run at once |
| SendPath.DeliverEachIsTo | nat_eval/l3fwd_sse.h:398-499 | one by one, each port's stream grows by exactly its packets in arrival order, and the freed ones are those for the bad port |
| SendPath.BurstIsPartitioned | nat_eval/l3fwd_sse.h:398-499 | the packets of all ports and the bad ones make up the burst, each once |
| SendPath.ToIsPassing | nat_eval/l3fwd_sse.h:60-77 | by their final ports, the packets for a port are those given to it that pass the checks, and the bad ones those that fail |
| SendPath.DeliveredIsSentOut | nat_eval/l3fwd_sse.h:398-499 | from the given ports and the headers alone: every stream grows by exactly the packets given to it that pass, in arrival order, and exactly those that fail are freed |
| SendPath.LcoreConf.SendRuns | nat_eval/l3fwd_sse.h:484-498 | the send loop over runs has the effect of delivering each packet |
| SendPath.LcoreConf.SendPacketsMulti | nat_eval/l3fwd_sse.h:398-499 | for every burst: each port's stream grows by exactly the packets given to it that pass the checks, in arrival order, exactly those that fail are freed, and all is as in the simple loop |
| SendPath.LcoreConf.SendNext | nat_eval/l3fwd_sse.h:295-315 | one packet of the simple loop |
| SendPath.LcoreConf.SendOneByOne | nat_eval/l3fwd.h:142-160 | the simple loop has the same effect, in the same terms |
| NatTable.SlotMeaning | nat_eval/nat.c:188-207 | every slot of the loaded table holds the greatest stored prefix at most it (or -1), the least one above, and the index of the former |
| NatTable.Chain | nat_eval/nat.c:188-207 | from a stored prefix the chain leads to the next one, with its first index |
| NatTable.StoredSlot | nat_eval/nat.c:197-207 | the slot of a stored prefix |
| NatTable.AccessOk | nat_eval/nat.c:300-318 | for every index in range the accesses of the lookup are in bounds, and its chain walk starts at a stored prefix |
| NatTable.Slash8Slots | nat_eval/nat.c:178-186 | with /8 prefixes only, index slot s holds prefix s |
| NatTable.Walk | nat_eval/nat.c:315 | the chain walk climbs along stored prefixes and ends |
| NatLoader.NatTables.FillGap | nat_eval/nat.c:191-195 | the slots between two prefixes are filled, no others |
| NatLoader.NatTables.FillIdx | nat_eval/nat.c:178-186 | one slot of the shared two-level index is written, no other |
| NatLoader.NatTables.AddLine | nat_eval/nat.c:178-203 | one line extends the table by one prefix |
| NatLoader.NatTables.Finish | nat_eval/nat.c:206-210 | sentinel, number of addresses and of prefixes |
| NatLoader.SizesIff | nat_eval/nat.c:206-210 | the tables are those of the kept lines exactly if these are contiguous and in range and the last line has an accepted mask length |
| NatLoader.NatTables.LoadRtbl | nat_eval/nat.c:114-211 | the tables after any file whose kept lines have ascending prefixes and fit the arrays, invalid mask lengths skipped; they are right exactly if the indices are contiguous and the last line was not a skipped one |
| NatLoader.NatTables.WalkChain | nat_eval/nat.c:315 | the walk of the lookup, which ends |
| NatLoader.NatTables.IdxToIpLookup | nat_eval/nat.c:300-318 | index to address |
| NatLoader.NatTables.IpToIdxLookup | nat_eval/nat.c:320-358 | address to index |
| NatBijection.WalkFinds | nat_eval/nat.c:315 | the walk ends at the prefix that owns the index |
| NatBijection.Slash16Slots | nat_eval/nat.c:181-186 | without /8 prefixes and within 2^24 addresses, the index slot of a 64K boundary holds the prefix that starts there |
| NatBijection.IdxToIpRight | nat_eval/nat.c:300-318 | in one regime, an index is translated to the address of that rank in its prefix |
| NatBijection.IpToIdxRight | nat_eval/nat.c:320-358 | with disjoint prefixes, an address is translated to the index of its rank in its prefix |
| NatBijection.UncoveredIsZero | nat_eval/nat.c:320-358 | an address from 1.0.0.0 on that no block covers gives 0 |
| NatBijection.IndexRoundTrip | nat_eval/nat.c:300-358 | index to address to index is the identity |
| NatBijection.AddressRoundTrip | nat_eval/nat.c:300-358 | address to index to address is the identity on every covered address |
| NatBijection.RoundTripIff | nat_eval/nat.c:114-211 | all indices survive exactly if the prefixes are disjoint and in one regime |
| NatBijection.FailsAt | nat_eval/nat.c:178-186 | a longer prefix at index K * 2^24 loses its index slot: that index becomes 0.0.0.0 and comes back as 0 |
| NatBijection.OutsideRegime | nat_eval/nat.c:178-186 | outside the regime there is such a prefix |
| NatBijection.Overlap | nat_eval/nat.c:320-358 | overlapping prefixes lose some index |
| NatBijection.LongestWins | nat_eval/nat.c:330-337 | the first address of a /24 is found whatever covers it |
| NatBijection.IdxToIpInjective | nat_eval/nat.c:300-318 | no two indices share an address |
| FfLib.TableReverses | nat_eval/enc_lib/ff3/ff_lib.h:17-22 | each entry of the 256-byte table is its index with the bits reversed |
| FfLib.BitReverse32IsRev | nat_eval/enc_lib/ff3/ff_lib.h:16-42 | the table-driven reversal reverses 32 bits |
| FfLib.BitReverseMIsRev | nat_eval/enc_lib/ff3/ff_lib.h:47-49 | the shifted reversal reverses the low m bits |
| Bits.RevRev | nat_eval/enc_lib/ff3/ff_lib.h:47-49 | reversing m bits is an involution on m-bit words |
| Bits.SwappedIsTurns | nat_eval/enc_lib/rc5.h:22-23 | exchanging the parts of a word is turning it one place at a time |
| Ff3.OpenClose | nat_eval/enc_lib/ff3/ff3.c:47-59 | splitting and reversing undoes joining |
| Ff3.CloseOpen | nat_eval/enc_lib/ff3/ff3.c:127 | joining undoes splitting on the low len bits |
| Ff3.CloseBit | nat_eval/enc_lib/ff3/ff3.c:127 | the joined word holds the bits of the halves in reverse order |
| Ff3.OpenIgnores | nat_eval/enc_lib/ff3/ff3.c:47-49 | input bits above len are ignored |
| Ff3.DecUndoesEnc | nat_eval/enc_lib/ff3/ff3.c:178-240 | the decrypt loop as intended, round input in T, undoes the encrypt loop, for any number of rounds |
| Ff3.EncUndoesDec | nat_eval/enc_lib/ff3/ff3.c:62-125 | the encrypt loop undoes the decrypt loop as intended |
| Ff3.DecryptEncrypt | nat_eval/enc_lib/ff3/ff3.c:27-133 | encryption is into len-bit words, ignores higher bits and is undone by decryption as intended, for every length, tweak, round function and even number of rounds |
| Ff3.EncryptDecrypt | nat_eval/enc_lib/ff3/ff3.c:143-248 | decryption as intended (round input in T) is undone by encryption: a permutation |
| Ff3.EncryptIsNist | nat_eval/enc_lib/ff3/ff3.c:55-127 | with the reversals hoisted out of the loop the result is that of Algorithm 9 in section 5.2 of NIST SP 800-38G, with its own split, widths and tweak halves |
| Ff3AsWritten.AsWrittenHalves | nat_eval/enc_lib/ff3/ff3.c:195-240 | the halves that decryption as written returns for an encrypted block |
| Ff3AsWritten.AsWrittenIff | nat_eval/enc_lib/ff3/ff3.c:195-240 | they are those that were encrypted exactly if, for each half, the round values added equal those taken off modulo its size |
| Ff3AsWritten.RestoresAllIff | nat_eval/enc_lib/ff3/ff3.c:195-240 | every block is restored exactly if encryption does the same with all halves zeroed |
| Ff3AsWritten.InsensitiveRestores | nat_eval/enc_lib/ff3/ff3.c:195-240 | a round function whose values do not depend on the half restores every block |
| Ff3AsWritten.SensitiveYetRestores | nat_eval/enc_lib/ff3/ff3.c:195-240 | that condition is not necessary |
| Ff3AsWritten.AsWrittenFails | nat_eval/enc_lib/ff3/ff3.c:83-85 | a round function of tweak word xor round number and half, and a block that is not restored, for every tweak, length from 2 and positive even number of rounds |
| Ff3AsWritten.AsWrittenNeverUndoes | nat_eval/enc_lib/ff3/ff3.c:195-240 | all round functions are undone only if there are no rounds |
| Ff3Code.ShlShrIsLow | nat_eval/enc_lib/ff3/ff3.c:49 | shifting a 32-bit word left and right masks it |
| Ff3Code.OpenBlock | nat_eval/enc_lib/ff3/ff3.c:39-59 | the steps before the loop |
| Ff3Code.CloseBlock | nat_eval/enc_lib/ff3/ff3.c:127 | the step after the loop |
| Ff3Code.Ff3Encrypt | nat_eval/enc_lib/ff3/ff3.c:27-133 | the encryption routine; refuses lengths above 48 |
| Ff3Code.Ff3Decrypt | nat_eval/enc_lib/ff3/ff3.c:143-248 | the decryption routine, as intended and as written |
| Ff3Code.EncryptThenDecrypt | nat_eval/enc_lib/ff3/ff3.c:27-248 | encryption, then decryption as intended (round input in T), returns the low len bits of the block |
| NatPacket.BlockRoundTrip | nat_eval/nat.c:376-416 | host and port survive encryption and decryption with any permuting cipher, whatever lies in the unused bits of the message |
| NatPacket.Ff3Permutes | nat_eval/nat.c:376-416 | FF3 with decryption as intended is such a cipher |
| NatPacket.Ff3AsWrittenPermutes | nat_eval/nat.c:454-494 | with decryption as written it is one exactly if that restores every block |
| NatPacket.StreamPermutes | nat_eval/enc_lib/chacha20/chacha.c:142-146 | xoring a key stream is such a cipher |
| NatPacket.FullTable | nat_eval/nat.c:411-416 | with as many addresses as host values, every encrypted host is an index of the table |
| NatPacket.ReplyGoesTo | nat_eval/nat.c:360-513 | whatever the two cipher functions do, a reply goes to the host and port that decryption yields |
| NatPacket.ReplyReturns | nat_eval/nat.c:360-513 | with a permuting cipher the reply to a translated packet is delivered to 10.0.0.0 or'ed with the host bits of the source, at its port |
| NatPacket.SourceRestoredIff | nat_eval/nat.c:454-494 | that is the source exactly if the source is an internal address |
| NatPacket.InternalRestored | nat_eval/nat.c:360-513 | with a permuting cipher, for every internal source and every remote endpoint, the reply returns to the source |
| NatPacket.NoCollision | nat_eval/nat.c:376-416 | with a permuting cipher distinct internal endpoints never share a translated one towards the same remote |
| NatAsWritten.AsWrittenBlock | nat_eval/nat.c:454-494 | with FF3 as written host and port come back exactly if the sums of round values agree |
| NatAsWritten.InternalSameIff | nat_eval/nat.c:489-493 | or'ed with 10.0.0.0 two hosts are the same exactly if all bits but 25 and 27 agree |
| NatAsWritten.AsWrittenReply | nat_eval/nat.c:454-494 | with FF3 as written and any number of host bits, a reply returns to its internal source exactly if the sums agree on the right half, and on the left half up to the hidden bits |
| NatAsWritten.AgreesSmall | nat_eval/nat.c:454-494 | up to 25 host bits that is the condition for the block to come back |
| NatAsWritten.ConfiguredReply | nat_eval/nat.c:44-46 | with the configured 26 it is the same with the lowest bit of the left half left out |
| NatAsWritten.HiddenBitReturns | nat_eval/nat.c:454-494 | there are blocks whose reply returns although they do not come back themselves |
| NatPacket.ConfiguredSize | nat_eval/nat.c:114-211 | with 2^26 addresses all indices survive exactly if the prefixes are disjoint /8 |
| NatPacket.Header.ProcessOutgoing | nat_eval/nat.c:360-437 | source address and port rewritten as specified, nothing else |
| NatPacket.Header.ProcessIncoming | nat_eval/nat.c:439-513 | destination address and port rewritten as specified, nothing else |
| Rc5.RotIsSwap | nat_eval/enc_lib/rc5.h:22-23 | the shift-and-or form exchanges the two parts of a 16-bit word, also for amount 0 |
| Rc5.RotBack | nat_eval/enc_lib/rc5.h:22-23 | rotating right undoes rotating left by any amount |
| Rc5.RotForth | nat_eval/enc_lib/rc5.h:22-23 | and the other way round |
| Rc5.RotIsTurns | nat_eval/enc_lib/rc5.h:22-23 | the rotation macro turns by the low four bits of the amount |
| Rc5.RoundUndone | nat_eval/enc_lib/rc5.h:26-44 | a decryption round undoes an encryption round with data-dependent rotations |
| Rc5.RoundRedone | nat_eval/enc_lib/rc5.h:26-44 | and the other way round |
| Rc5.CipherInverts | nat_eval/enc_lib/rc5.h:46-120 | both compositions are the identity for every block, key schedule and number of rounds |
| Rc5.EncryptIsHalves | nat_eval/enc_lib/rc5.h:46-83 | the cipher is half rounds in the analysts' form: word j of the key enters half round j |
| Rc5.EMacro | nat_eval/enc_lib/rc5.h:26-34 | the statements of the encryption macro compute one round |
| Rc5.DMacro | nat_eval/enc_lib/rc5.h:36-44 | those of the decryption macro compute its inverse |
| Rc5.Encrypt16 | nat_eval/enc_lib/rc5.h:46-83 | a loop of the macro over the rounds, in place, is the cipher on the two words |
| Rc5.Decrypt16 | nat_eval/enc_lib/rc5.h:85-120 | the same downwards for decryption |
| Rc5.NatEncrypt | nat_eval/enc_lib/nat_enc.h:32-45 | whitening by the hash around the cipher |
| Rc5.NatDecrypt | nat_eval/enc_lib/nat_enc.h:47-60 | the inverse |
| Rc5.RoundTrip | nat_eval/enc_lib/nat_enc.h:32-60 | encryption and decryption undo each other for every block, hash and key |
| ChaCha.CounterCarries | nat_eval/enc_lib/chacha20/chacha.c:136-140 | the carry from word 12 to word 13 advances a 64-bit counter by one |
| ChaCha.FromDiagonals | nat_eval/enc_lib/chacha20/chacha.c:46-49 | quarter rounds on the four diagonals are column rounds on the matrix with its rows turned |
| ChaCha.Ctx.QuarterRound | nat_eval/enc_lib/chacha20/chacha.c:14-18 | the eight updates in place compute the quarter round of section 2.1 of RFC 8439 on four words and leave the others alone |
| ChaCha.Ctx.ColumnRounds | nat_eval/enc_lib/chacha20/chacha.c:42-45 | the first four quarter rounds act on the columns of the state |
| ChaCha.Ctx.DiagonalRounds | nat_eval/enc_lib/chacha20/chacha.c:46-49 | the last four act on its diagonals |
| ChaCha.Ctx.WordToByte | nat_eval/enc_lib/chacha20/chacha.c:20-83 | the in-place rounds compute the key block of the state, which KeyBlockIsWords describes |
| ChaCha.Ctx.XorChunk | nat_eval/enc_lib/chacha20/chacha.c:142-146 | one chunk xored, also in place |
| ChaCha.Ctx.StreamChunk | nat_eval/enc_lib/chacha20/chacha.c:134-150 | one pass of the loop |
| ChaCha.Ctx.EncryptBytes | nat_eval/enc_lib/chacha20/chacha.c:125-152 | for every length, byte i is xored with byte i mod 64 of the block i / 64 counts on, the rest of the buffer and the context are as before |
| ChaCha.Ctx.EncryptThenDecrypt | nat_eval/enc_lib/chacha20/chacha.c:125-157 | encrypting and decrypting in place with one context returns the message |
| ChaCha.Ctx.EncryptThenDecryptApart | nat_eval/enc_lib/chacha20/chacha.c:125-157 | the same from buffer to buffer, for two or three buffers |
| MachineWords.PlusNat | nat_eval/enc_lib/chacha20/chacha.c:14-18 | for all words, addition modulo 2^32 is that of the machine |
| MachineWords.XorNum | nat_eval/enc_lib/chacha20/chacha.c:14-18 | so is exclusive or |
| MachineWords.LeftsNat | nat_eval/enc_lib/chacha20/chacha.c:14-18 | so are the four rotations, place by place |
| ChaChaWords.QuarterIsWords | nat_eval/enc_lib/chacha20/chacha.c:14-18 | for all words the quarter round is that of section 2.1 of RFC 8439 on machine words |
| ChaChaWords.DoubleIsWords | nat_eval/enc_lib/chacha20/chacha.c:42-49 | column and diagonal rounds are the eight quarter rounds of section 2.3.1 |
| ChaChaWords.KeyBlockIsWords | nat_eval/enc_lib/chacha20/chacha.c:20-83 | for every state the key block, read as little-endian words, is twenty rounds with the input added back, on machine words |
| ChaChaVectors.QuarterVector | nat_eval/enc_lib/chacha20/chacha.c:14-18 | the example of section 2.1.1 of RFC 8439 |
| ChaChaVectors.BlockVector | nat_eval/enc_lib/chacha20/chacha.c:20-83 | the example of section 2.3.2 of RFC 8439 |
| ChaChaVectors.KeyBlockUndone | nat_eval/enc_lib/chacha20/chacha.c:20-83 | for every state, taking twenty rounds back, with right rotations and subtractions, from the key block less the state gives the state |
| CryptoModes.CbcInverts | ipsec_eval/esp.c:320-327 | CBC decryption undoes encryption |
| CryptoModes.CbcLeadingBlock | ipsec_eval/esp.c:320-327 | enciphering a zero block in front makes its ciphertext the IV of the rest |
| CryptoModes.CtrInverts | ipsec_eval/esp.c:328-334 | counter mode is its own inverse |
| EspSpec.PaddingMinimal | ipsec_eval/esp.c:250-253 | the padded length is the least multiple of the block size with room for the trailer, section 2.4 of RFC 4303 |
| EspSpec.PadLenRight | ipsec_eval/esp.c:250-253 | the padding length is right even where the 16-bit padded length wraps |
| EspRoundTrip.Sealed | ipsec_eval/esp.c:312-384 | what the device makes of an outbound packet, in its five parts |
| EspRoundTrip.DigestsAgree | ipsec_eval/esp.c:360-379 | both ends compute the same digest unless GCM authentication meets a cipher that is no counter mode |
| EspRoundTrip.Opened | ipsec_eval/esp.c:53-151 | the receiver computes the matching operation; the device restores the enciphered part exactly if the digest is the one the receiver computes |
| EspRoundTrip.Stripped | ipsec_eval/esp.c:172-188 | the padding check passes and exactly trailer and digest go |
| EspRoundTrip.Unwrapped | ipsec_eval/ipip.h:138-178 | what is left is the inner packet, aged, with the outer congestion mark |
| EspRoundTrip.OuterHeaderArrives | ipsec_eval/ipip.h:67-106 | the outer header, section 5.1.2.1 of RFC 4301, has the version and length the receiver expects and the traffic class of the inner packet |
| EspRoundTrip.Transit | ipsec_eval/esp.c:153-345 | what was sent is accepted by the receiver's device and reaches the decapsulation exactly if both ends agree on the digest |
| EspRoundTrip.TransitRoundTrip | ipsec_eval/esp.c:153-345 | for every inner packet, SA, sequence number and outer header of the right shape on arrival: exactly if both ends agree on the digest, as they do with a matched SA, all checks pass and the inner packet comes back with its TTL lowered by two, marked if the outer header was; the assertion on the remaining length then holds exactly if the packet is longer than the outer header |
| EspRoundTrip.TunnelRoundTrip | ipsec_eval/esp.c:153-345 | with the header as sent, the packet comes back with its TTL lowered by two and no other change exactly if the ends agree on the digest, as with every matched SA |
| EspRoundTrip.CarriesIff | ipsec_eval/esp.c:312-384 | an SA carries every packet under every key exactly if GCM authentication comes only with a counter mode |
| EspCode.NoWrap | ipsec_eval/esp.c:250-253 | in a buffer of at most 65535 bytes the padded length never wraps |
| EspCode.FrameIsClear | ipsec_eval/esp.c:285-345 | the writes into the encapsulated packet make it the packet to be sealed |
| EspCode.Mbuf.PutTrailer | ipsec_eval/esp.c:342-345 | padding, its length and the next header in place, nothing else |
| EspCode.Mbuf.IpipOutbound | ipsec_eval/ipip.h:44-107 | the inner packet aged; where the head room suffices, the outer header in front and a gap between |
| EspCode.SecAssoc.Encapsulate | ipsec_eval/esp.c:285-386 | headers, IV, trailer and the crypto operation, an error for unknown algorithms, or a failed assertion without head room |
| EspCode.SecAssoc.EspOutbound | ipsec_eval/esp.c:211-387 | every error and its condition, what is unchanged then, the failed assertion where the head room is too small, and on success the exact bytes of the packet and the crypto operation |
| EspCode.EspInbound | ipsec_eval/esp.c:53-151 | the crypto operation or an error, exactly as specified |
| EspCode.PaddingRight | ipsec_eval/esp.c:172-182 | true exactly if the bytes before the pad length are 1, 2, 3, ... |
| EspCode.EcnSetup | ipsec_eval/ipip.h:123-136 | a congestion mark set on ECN-capable packets of either version only |
| EspCode.IpipInbound | ipsec_eval/ipip.h:138-178 | outer headers dropped, mark copied, TTL lowered, with bytes behind the packet where it is shorter than an inner header; false and nothing changed where the outer headers are not there |
| EspCode.EspInboundPost | ipsec_eval/esp.c:153-209 | both errors leave the packet alone; otherwise it is the unwrapped one, with bytes behind it where it is shorter than an inner header, or the code runs into a null pointer where the outer headers are missing |
| EspTransit.DeviceSeals | ipsec_eval/esp.c:312-384 | the device enciphers the range of the operation in place and writes the digest at the end |
| EspTransit.DeviceOpens | ipsec_eval/esp.c:90-148 | it compares the digest and deciphers in place, or leaves the packet alone |
| EspTransit.Emit | ipsec_eval/esp.c:211-387 | what leaves the sender's buffer is the sealed packet the round trip speaks of |
| EspTransit.Receive | ipsec_eval/esp.c:53-209 | an accepted packet is unwrapped in the buffer, a refused one is left alone with -1 |
| EspTransit.ThroughTunnel | ipsec_eval/esp.c:53-387 | both ends on one buffer: the packet is declined untouched, or comes back with its TTL lowered by two where the ends agree on the digest, or is refused by the device |
| EspWire.SentLaidOut | ipsec_eval/esp.c:306-346 | every sealed packet on bytes: version, traffic class, length, TTL 64, protocol 50 and addresses of the outer header, SPI, sequence number modulo 2^32 behind it, IV |
| EspWire.SealedIsFound | ipsec_eval/sa.c:732-778 | every packet an SA seals has the headers the lookup needs and is found to belong to the entry of that SA |
| EspWire.InnerLaidOut | ipsec_eval/esp.c:339-345 | the enciphered part on bytes: packet, padding 1, 2, 3, ..., its length, 4 or 41 |
| EspWire.IvsDiffer | ipsec_eval/esp.c:328-334 | no two sequence numbers below 2^64 give one SA the same IV or counter block |
| EspWire.AgedBytes | ipsec_eval/ipip.h:55-64 | byte 8 of an IPv4 packet or byte 7 of an IPv6 one is lowered modulo 256, no other byte changes |
| EspWire.MarkedBytes | ipsec_eval/ipip.h:121-136 | a mark sets the two low bits of the traffic class of an ECN-capable packet and no other bit |
| EspWire.UntrailedIff | ipsec_eval/esp.c:168-188 | the trailer is accepted exactly if the packet ends in 1, 2, ..., n, then n, some next header and the digest; what is left is what was in front |
| EspWire.DeclinedIff | ipsec_eval/esp.c:249-283 | an IP packet is declined exactly if the sealed one would exceed 65535 bytes or padding and digest do not fit behind it |
| EspWire.InOpIff | ipsec_eval/esp.c:64-148 | a packet is taken exactly if it is IP with known algorithms and a positive number of whole blocks lies between IV and digest; the operation deciphers these, in counter modes from salt, IV and 1 |
| CryptoQueue.PushSafe | ipsec_eval/ipsec.c:82-103 | a queue stays below a burst, its count right and in order, whatever the device accepts |
| CryptoQueue.EnqueueSafe | ipsec_eval/ipsec.c:105-151 | one packet keeps all queues and indices sound, whether or not a session and the transformation succeed |
| CryptoQueue.VisitSafe | ipsec_eval/ipsec.c:163-196 | polling one queue keeps them sound and returns no more than there is room for |
| CryptoQueue.AddMappingSafe | ipsec_eval/ipsec-secgw.c:1122-1171 | adding a mapping keeps all queues and indices sound; which queue it names is said by MappingStays |
| CryptoQueue.Dequeue | ipsec_eval/ipsec.c:153-200 | at most the maximum is returned |
| CryptoRuns.EnqueueConserves | ipsec_eval/ipsec.c:105-151 | a packet offered is afterwards waiting, in flight or freed, once |
| CryptoRuns.DequeueConserves | ipsec_eval/ipsec.c:153-200 | what leaves the device is returned or freed, once |
| CryptoRuns.RunIsSafe | ipsec_eval/ipsec.c:82-200 | on every run: buffers below 32, in-flight counts equal to the device queues, valid indices, each queue first in first out, and every packet waiting, in flight, freed or returned as often as it was offered |
| CryptoRuns.CollectsEverything | ipsec_eval/ipsec.c:163-172 | a call not stopped by its maximum polls every queue: with a device that gives back all it has, none is left in flight |
| CryptoMapping.EnqueueJoins | ipsec_eval/ipsec.c:105-151 | a packet joins the queue of the device its key is mapped for and no other, or is freed if there is none, no SA or no transformation; the SA gets a session where one can be created |
| CryptoMapping.RunFollows | ipsec_eval/ipsec.c:47-151 | on every run, from the events alone: no two queues have one device, every key stays with the device it was first mapped for, every session is with the queue of that device, and exactly the packets sent to a device arrived at its queue, in order |
| CryptoMapping.MappingStays | ipsec_eval/ipsec-secgw.c:1122-1171 | once a call is the first to map a key, the key names the queue of that device in every later state |
| CryptoMapping.RunInBursts | ipsec_eval/ipsec.c:82-103 | on every run a device has been offered whole bursts of 32, and took the first packets of each |
| CryptoCode.IpsecCtx.EnqueueCop | ipsec_eval/ipsec.c:82-103 | the table entry in place, the burst handed over, the rest freed |
| CryptoCode.IpsecCtx.CreateSession | ipsec_eval/ipsec.c:47-80 | the SA gets the queue its algorithms are mapped to, or nothing changes |
| CryptoCode.IpsecCtx.EnqueueOne | ipsec_eval/ipsec.c:114-150 | one packet; the assertion on its queue index holds |
| CryptoCode.IpsecCtx.IpsecEnqueue | ipsec_eval/ipsec.c:105-151 | all packets in order |
| CryptoCode.IpsecCtx.VisitNext | ipsec_eval/ipsec.c:163-196 | one queue polled |
| CryptoCode.IpsecCtx.Finish | ipsec_eval/ipsec.c:179-195 | the packets whose transformation succeeds are stored in order, the others freed |
| CryptoCode.IpsecCtx.IpsecDequeue | ipsec_eval/ipsec.c:153-200 | the packets returned, and the new state |
| CryptoCode.IpsecCtx.AddMapping | ipsec_eval/ipsec-secgw.c:1122-1171 | the code follows the model's step, whose mapping stays with the device it was made for (MappingStays) |
| Gateway.InboundPlaces | ipsec_eval/ipsec-secgw.c:424-462 | each packet of a burst, and each one back from IPsec, is in one list, handed over or freed, once |
| Gateway.InboundKeeps | ipsec_eval/ipsec-secgw.c:388-422 | per list whose policy table is present: a packet is kept as often as it came on BYPASS, and as often as it came through IPsec when it is not to be discarded and the policy names the SPI of its SA |
| Gateway.OutboundPlaces | ipsec_eval/ipsec-secgw.c:464-527 | the same conservation outbound |
| Gateway.OutboundLeaves | ipsec_eval/ipsec-secgw.c:464-527 | per list, with or without its policy table, how often each packet leaves, is protected, and comes back |
| Gateway.HandedConserves | ipsec_eval/ipsec.c:202-226 | what goes into the crypto queues was there, stays there, comes out or is freed |
| Gateway.InboundConserves | ipsec_eval/ipsec-secgw.c:275-462 | through a whole inbound burst every packet, old or new, is in one place as often as before, and no list exceeds 64 |
| Gateway.OutboundConserves | ipsec_eval/ipsec-secgw.c:275-527 | the same for an outbound burst |
| GatewayWords.WordBits | ipsec_eval/ipsec.h:61-67 | DISCARD is bit 31 of a policy word, BYPASS bit 30, the slot the bits below |
| GatewayWords.InboundByWord | ipsec_eval/ipsec-secgw.c:388-462 | inbound with word 0x80000000 a packet is freed as often as it came, with 0x40000000 kept as often, and with a slot kept as often as it came back from IPsec through the SA in it |
| GatewayWords.OutboundByWord | ipsec_eval/ipsec-secgw.c:464-527 | outbound with word 0x80000000 or none a packet is freed as often as it came, with 0x40000000 it leaves as often, and with a slot it is handed to IPsec as often |
| GatewayWords.ProtectedWithSlot | ipsec_eval/ipsec-secgw.c:477-491 | it is handed over with that slot |
| GatewayQueues.InboundJoins | ipsec_eval/ipsec.c:202-213 | through a whole inbound burst each device's queue gets exactly the ESP packets whose SA was found and whose key is mapped for it, in order |
| GatewayQueues.OutboundJoins | ipsec_eval/ipsec.c:215-226 | through a whole outbound burst each device's queue gets exactly the packets to be protected whose policy slot has a key mapped for it, in order |
| GatewayCode.TrafficList.Classify | ipsec_eval/ipsec-secgw.c:398-399 | each result is the policy's for the packet at that place |
| GatewayCode.TrafficList.Compact | ipsec_eval/ipsec-secgw.c:401-421 | compaction in place keeps the survivors in order and frees the others |
| GatewayCode.TrafficList.Divide | ipsec_eval/ipsec-secgw.c:477-491 | those that stay compacted in place, those to protect appended with their SA index, the others freed |
| GatewayCode.InboundCheck | ipsec_eval/ipsec-secgw.c:404-419 | the test for one packet |
| GatewayCode.Lcore.PrepareOne | ipsec_eval/ipsec-secgw.c:242-273 | one packet to one list, or freed |
| GatewayCode.Lcore.PrepareTraffic | ipsec_eval/ipsec-secgw.c:275-293 | the burst sorted by kind, each list in order |
| GatewayCode.Lcore.InboundSpSa | ipsec_eval/ipsec-secgw.c:388-422 | a list after the policy, and what was freed |
| GatewayCode.Lcore.OutboundSp | ipsec_eval/ipsec-secgw.c:464-492 | a list after the policy, what was appended to the IPsec list, and what was freed |
| GatewayCode.Lcore.IpsecInbound | ipsec_eval/ipsec.c:202-213 | lookup, enqueue and dequeue over one array |
| GatewayCode.Lcore.IpsecOutbound | ipsec_eval/ipsec.c:215-226 | the same with the policy's SA slots |
| GatewayCode.Lcore.SortInbound | ipsec_eval/ipsec-secgw.c:437-455 | what came back appended by version, or freed |
| GatewayCode.Lcore.SortOutbound | ipsec_eval/ipsec-secgw.c:515-526 | what came back appended by version |
| GatewayCode.Lcore.ProcessInbound | ipsec_eval/ipsec-secgw.c:424-462 | lists, freed packets and crypto queues after an inbound burst |
| GatewayCode.Lcore.ProcessOutbound | ipsec_eval/ipsec-secgw.c:494-527 | lists, freed packets and crypto queues after an outbound burst |
| GatewaySa.PassesByEntry | ipsec_eval/ipsec-secgw.c:404-419 | with tables filled from the list, a packet passes exactly if it bypasses or, not to be discarded, its policy names the nonzero slot of the entry it came through |
| GatewaySa.InboundKeepsByEntry | ipsec_eval/ipsec-secgw.c:388-422 | how often each list keeps a packet back from IPsec, in terms of the configured entry it came through |
| GatewaySa.ProtectNamesEntry | ipsec_eval/ipsec.h:61-67 | a rule protecting with a configured SPI lets in exactly the packets of that entry, or none if its slot is 0 |
| SaTable.StoredMatchesOctets | ipsec_eval/sa.c:604-608 | a swapped word equals a word loaded from a packet exactly if the packet shows the configured address |
| SaTable.SlotFinds | ipsec_eval/sa.c:753-755 | without clashes a slot decides like a linear search of the list |
| SaTable.SlotTaken | ipsec_eval/sa.c:594-600 | the occupied test fires exactly on a clash |
| SaTable.PolicyNamesSa | ipsec_eval/sa.c:722-730 | a policy that names a configured SPI passes exactly the packets of that SA |
| SaTable.ChainsDo | ipsec_eval/sa.c:609-652 | outbound chains encipher and then authenticate the ciphertext, inbound ones verify and then decipher, with the algorithms and keys of the entry |
| SaTable.StoredKeeps | ipsec_eval/sa.c:601-608 | a slot keeps SPI, flags and endpoints of its entry, the latter in network order for IPv4, with the sequence number at 0 |
| SaTable.SaCtx.AddRules | ipsec_eval/sa.c:586-663 | success exactly if no entry with a nonzero SPI shares its index with a later one; the table then holds the list, each entry with its chain of crypto transforms, otherwise the entries before the first clash |
| SaTable.SaCtx.InboundLookup | ipsec_eval/sa.c:732-778 | for every packet the lookup finds the entry that a search of the list by SPI and outer header finds, or none |
| SaTable.SaCtx.InboundSaCheck | ipsec_eval/sa.c:722-730 | a nonzero SPI passes exactly if it is configured and the policy names its slot; zero passes exactly where no entry has taken the slot |
| AddrText.QuadIff | ipsec_eval/parser.c:83-121 | accepted are exactly four numbers up to 255 with dots between, and the result is their values |
| AddrText.QuadComplete | ipsec_eval/parser.c:93-115 | every such text is accepted |
| AddrText.QuadSound | ipsec_eval/parser.c:93-115 | nothing else is |
| AddrText6.Complete | ipsec_eval/parser.c:136-234 | every well-formed text is accepted, with its bytes |
| AddrText6.Sound | ipsec_eval/parser.c:136-234 | what is accepted is well-formed |
| AddrText6.ParseIff | ipsec_eval/parser.c:136-234 | accepted are exactly the well-formed texts; the result is left fields, zeros for the gap, right fields |
| AddrCode.InetPton4 | ipsec_eval/parser.c:83-121 | 1 and the four octets stored, or 0 and nothing touched |
| AddrCode.Scan | ipsec_eval/parser.c:150-203 | the character loop over the temporary buffer |
| AddrCode.ShiftRight | ipsec_eval/parser.c:221-228 | the overlapping shift moves the bytes behind the double colon to the end and leaves zeros |
| AddrCode.InetPton6 | ipsec_eval/parser.c:136-234 | 1 and the sixteen bytes stored, or 0 and nothing touched |
| AddrCode.Print4Parses | ipsec_eval/sa.c:522-525 | the printed form of any four octets is parsed back |
| AddrCode.Print6 | ipsec_eval/sa.c:529-534 | the printing loop prints eight fields of four digits |
| AddrCode.Print6Parses | ipsec_eval/sa.c:529-534 | the printed form of any sixteen bytes is parsed back |
| DepthSplit.WordMatchesIff | ipsec_eval/sp6.c:318-324 | one word field matches exactly if the address has the same leading bits there |
| DepthSplit.ReachCovers | ipsec_eval/sp6.c:318-348 | four word masks match exactly the addresses that share the first min(depth, 128) bits |
| DepthSplit.SplitPrefix | ipsec_eval/sp6.c:318-348 | the four fields written do that, their mask lengths add up to min(depth, 128), and the other fields are unchanged |

## Left out

- EspRoundTrip.CarriesIff: how a device treats GCM authentication with a cipher that is no counter mode, beyond IV and range, is not modelled.
- EspCode.EspInboundPost: where the outer headers are there, nine more bytes must lie in the buffer.
- EspCode.SecAssoc.EspOutbound: what happens behind a failed assertion is not modelled.
- ChaCha.Ctx.EncryptBytes: message and ciphertext are the same buffer or do not overlap; a partial overlap is not modelled.  Filling the state from key and IV is left out: the state is arbitrary.
- Rc5.NatEncrypt: works on a 32-bit block, while the packet layout needs 42 bits; RC5 is not joined to the NAT tables.
- Rc5.Encrypt16: the twenty macro copies are a loop.
- Ff3.EncryptIsNist: AES and CBCMAC are an arbitrary function of tweak word, round and half; the 64-bit wrap of the sum is invisible below 32 bits.
- NatLoader.NatTables.LoadRtbl: starts from parsed lines; reading and splitting the text of the prefix file is left out, and the accepted lines are required to have ascending prefixes with first octets of at least 1 and to fit the arrays, as the files do.  A skipped last line is covered where 1 << (32 - mask) is defined.
- PortGrouping.FinishAndGroup: the vector registers are sequences of four ports; prefetches and the Ethernet header rewrite are left out.
- TxBuffer.TxPort.SendPacketsX4: contents are stated below the buffer's length; the slots behind it may be overwritten.
- CryptoCode.IpsecCtx.IpsecEnqueue: one lcore; an SA shared between lcores and the key's lcore field are left out.  A device holds at most 2048 operations per queue.
- GatewayCode.Lcore.ProcessInbound: what a packet's headers say is a function of the packet, fixed for the burst.
- SaTable.SaCtx.AddRules: the fields of a transform are those the function copies; keys are byte strings.
- Packet buffers have one segment; segment chains are left out.
- ESP transport mode is left out: the moved header may overlap the old one before its version is read again.
- The outbound path without a policy table is left out: it looks at a packet slot unrelated to what it processed.
- Routing, hashing and access-rule lookup, Ethernet addresses, checksums and queue set-up belong to DPDK and are left out.
- Command lines, configuration files, keyword parsing beyond the prefix split, logging and timing are left out.
