# Models of a DPDK test suite: parsers, configuration, packet handling and benchmarks

This project models the stateful cores of the programs under `dpdk-stable-18.11.1/app`
and of the CleanQ UDP echo benchmark, and proves what they keep over all inputs and all
runs.

- **The flow command parser of testpmd** (`FlowParser`, `FlowContext`, `FlowTable`,
  `FlowArena`, `FlowTargets`, `FlowFields`, `FlowMasks`, `FlowStrings`). `FlowParser`
  specifies the table-driven parser with its two stacks, for any token table, and gives
  a typing discipline for tables: what each token takes from the argument stack together
  with everything it brings, how much of both stacks it may use, through which phases of
  a create command it leads, and how large the object is that its arguments are relative
  to. A well-typed table keeps both stacks balanced and bounded on every line.
  `FlowContext` is the context as the callbacks update it, two arrays of 16 entries,
  refining that specification. `FlowTable` is an excerpt of the real table that uses
  every kind of callback, proved well typed. `FlowArena` is the two-ended output buffer;
  `FlowTargets` joins it with the typing, so that on every line every value is stored
  inside the object that is current when it is accepted, in an item the one that the
  last parameter names. `FlowFields`, `FlowMasks` and `FlowStrings` are the stores, bit
  by bit, and the equivalent spellings of a match.
- **Configuration of testpmd** (`FwdConfig`, `FlowRules`, `McastPool`,
  `RegisterFields`): stream-to-lcore partitioning and topologies, the linked list of
  flow rules with its sorted listing, the multicast pool, register fields.
- **Crypto benchmarks** (`CryptoTestbed`, `Throughput`, `Latency`, `CycleCount`,
  `CryptoSetup`): a loop against a device that accepts any prefix of a burst and returns
  what it holds in any order. The pool and the device are sets of operations, and every
  call to either is logged with its answer; the proofs show that ownership is conserved
  on every exit, that a completed run leaves the pool whole, and that what is counted is
  what the device took and handed back. An endless poll is modelled by a number of
  polls, chosen freely: statements hold after any number of them.
- **Packets** (`SplitCopy`, `Dissector`, `PacketGrammar`, `Checksum`, `FlowGen`): the
  split copy, the tunnel dissector as the inverse of an encoder, the one's-complement
  checksum, and the round-robin generator.
- **CleanQ echo** (`CleanQEcho`): buffers as tokens that are in exactly one place, and
  logs, kept at the queue interface, of what was received and transmitted.

`Basics` and `Arith` hold shared types and facts about division.

Sequences, sets and maps stand for the source's lists; arrays and objects are used where
the source updates in place, and each such method is tied to a specification function
about which the properties are proved. Library calls (mempools, devices, CleanQ queues,
C conversions, memory allocation) appear as nondeterministic methods with the contract
their callers rely on, or as parameters. Machine widths are written out where they
matter (8-bit lcore ids, 16-bit stream ids, queue counts and IMIX totals, 32-bit rule
identifiers, the 64-bit prefix value).

Where code and expectation differ, the model follows the code, and the exact condition
is proved: ranges of streams need no more lcores than streams (`RangesEnd`); the RSS
setup serves all queues only while their number fits 16 bits (`RssServesAll`); both
setups divide by zero when streams are left without an lcore, which the ICMP echo mode
reaches with receive queues and no transmit queue (`RssSetup`, `IcmpSetup`); ICMP echo
replies need as many transmit as receive queues (`IcmpTxQueuesExist`); a prefix mask
over more than 64 masked bits is cut to 64 bits (`StorePrefixField`,
`PrefixPathsAgree`); on a field without a bit-mask a prefix length counts modulo 2^35,
so `prefix 34359738368` is accepted as `prefix 0` (`HugePrefixes`, `StoredExact`); a
match on a string with `is` is no match that `spec` and `mask` can spell
(`StringSpellings`, `RawPatternSpellings`); IPv6 in IP is documented as supported and is
recognised only under protocol number 4, not under its own number 41 (`IpInIpExactly`,
`Ipv6InIpMissed`); the checksum ignores an odd trailing byte (`MatchesRfc1071`); a retry
may skip flows and send stale buffers (`CounterFollowsExactly`, `GaplessExactly`); the
split copy does not refuse a first mbuf without tailroom and has no defined result for
an empty packet (`PktCopySplit`), and it fails on a packet of several segments whose
boundaries the configured lengths do not meet (`CopiedExactly`, `TwoIntoOneFails`); IMIX
weights must sum to at most 65535 (`ImixExact`); and a CleanQ buffer is lost when its
re-enqueue fails, in the application or while the library drops a packet (`Echo.Run`).

## Model
| member | source | states |
|---|---|---|
| `FlowParser.StacksStayTyped` | dpdk-stable-18.11.1/app/test-pmd/cmdline_flow.c:4791-4865 | main theorem: for every well-typed token table, every line and every behaviour of the library conversions and the buffer, the number of stacked arguments equals what the stacked lists need, neither stack holds more than 16 entries or overflows, a finished command leaves no argument behind, and buffer tokens come in order |
| `FlowParser.LinesKeepBufferSafe` | dpdk-stable-18.11.1/app/test-pmd/cmdline_flow.c:3032-3197 | whatever a line says, the output buffer satisfies arena safety |
| `FlowParser.CallFrame` | dpdk-stable-18.11.1/app/test-pmd/cmdline_flow.c:2849-2863 | backtracking frame for every callback, every table and every state: a refusal restores the argument stack exactly (and leaves the list stack alone, except that `prefix` may already have replaced the list below the top); an acceptance has taken exactly its own 0, 1 or 3 arguments from the top |
| `FlowParser.CallTyped` | dpdk-stable-18.11.1/app/test-pmd/cmdline_flow.c:4833-4846 | no callback is short of arguments on a typed stack, and whether it accepts or refuses the stack stays typed |
| `FlowParser.ParseTyped` | dpdk-stable-18.11.1/app/test-pmd/cmdline_flow.c:4827-4864 | one word: the accepted candidate comes from the top list, its successors and arguments are pushed without overflow, and the stacks are typed in the phase it leads to |
| `FlowParser.SubstitutionTyped` | dpdk-stable-18.11.1/app/test-pmd/cmdline_flow.c:3154-3178 | replacing the list at `next_num - 2` by the prefix list keeps arguments, slots and phases typed |
| `FlowParser.RepeatTyped` | dpdk-stable-18.11.1/app/test-pmd/cmdline_flow.c:3342-3350 | a repeated token finds room for pushing its own list again, and push followed by consumption leaves the stacks as they were |
| `FlowParser.AdvanceTyped` | dpdk-stable-18.11.1/app/test-pmd/cmdline_flow.c:4847-4864 | dropping the consumed list and pushing a token's lists and arguments never overflows and keeps the stack typed |
| `FlowParser.TriedFirstInvisible` | dpdk-stable-18.11.1/app/test-pmd/cmdline_flow.c:4833-4846 | backtracking is invisible: where names are distinct, the accepted candidate replies as if it had been the only one, whatever was tried before it |
| `FlowParser.TakenExactly` | dpdk-stable-18.11.1/app/test-pmd/cmdline_flow.c:4833-4846 | a list of distinct names accepts a word for a candidate if and only if that candidate would accept it alone |
| `FlowParser.WordTakenExactly` | dpdk-stable-18.11.1/app/test-pmd/cmdline_flow.c:4791-4865 | on every line a word is taken for a token if and only if the token is a candidate of the list on top and its callback accepts the word: an expected keyword is never refused |
| `FlowParser.AcceptedIsStorable` | dpdk-stable-18.11.1/app/test-pmd/cmdline_flow.c:4296-4369 | numbers and prefixes are accepted if and only if they fill the word, keep the bounds and can be stored: accepting and storing never disagree |
| `FlowParser.ExpectedAfter` | dpdk-stable-18.11.1/app/test-pmd/cmdline_flow.c:3154-3178 | what is expected after a token: `prefix` puts the prefix length in the place of the value list below it, every other token that brings nothing leaves that list on top |
| `FlowParser.NextTaken` | dpdk-stable-18.11.1/app/test-pmd/cmdline_flow.c:4791-4865 | on every line the token accepted after a `prefix` parameter is the prefix length, after any other token that brings nothing it comes from the list below, and else from the last list brought |
| `FlowParser.FieldSpelled` | dpdk-stable-18.11.1/app/test-pmd/cmdline_flow.c:4791-4865 | on every line a field is followed by one of its parameters, and then by its own value, or by the prefix length after `prefix` |
| `FlowParser.ArgumentsStayInside` | dpdk-stable-18.11.1/app/test-pmd/cmdline_flow.c:4791-4865 | on every line over a table typed with object sizes, each accepted token's arguments, and whatever else its callback writes, lie inside the object that is current at that moment |
| `FlowParser.QueueCounted` | dpdk-stable-18.11.1/app/test-pmd/cmdline_flow.c:3363-3408 | on every line, the argument for an accepted RSS queue is made up from an index below 32, the next queue gets the next index, and `end` starts again at 0 |
| `FlowTargets.TakenFollowed` | dpdk-stable-18.11.1/app/test-pmd/cmdline_flow.c:3032-3197 | after any accepted tokens the buffer's current object and block are those the typing follows on the side |
| `FlowTargets.RoomIsObject` | dpdk-stable-18.11.1/app/test-pmd/cmdline_flow.c:3046-3197 | wherever the typing says there is room, `ctx->object` points at an object of exactly that size: the buffer's header or the attributes in it, one third of the current item's block, or the current action's block; a full mask goes to the mask third of the same item |
| `FlowTargets.AimedAsSaid` | dpdk-stable-18.11.1/app/test-pmd/cmdline_flow.c:3139-3197 | in an item, whatever the line said before, the object aimed at is the one the last parameter names and the item's own pointer to it is that address; a full mask is written for `is` alone |
| `FlowTargets.ValuesLandInObjects` | dpdk-stable-18.11.1/app/test-pmd/cmdline_flow.c:2923-3197 | joint main theorem: for every well-typed table and every line, each value accepted in a create command ends inside the object that `ctx->object` points to at that moment (the header, the attributes, the action's block, or that one of the item's spec, last and mask objects which the last parameter names), its full mask likewise, and the buffer as a whole stays safe |
| `FlowContext.Parser.PopArgs` | dpdk-stable-18.11.1/app/test-pmd/cmdline_flow.c:2849-2854 | pops the last argument, or reports that there is none |
| `FlowContext.Parser.PushArgs` | dpdk-stable-18.11.1/app/test-pmd/cmdline_flow.c:2856-2863 | pushes one argument unless the stack is full |
| `FlowContext.Parser.ParseInt` | dpdk-stable-18.11.1/app/test-pmd/cmdline_flow.c:4296-4369 | takes one argument exactly when the number is whole, in bounds and storable; otherwise the stack is restored |
| `FlowContext.Parser.ParsePrefix` | dpdk-stable-18.11.1/app/test-pmd/cmdline_flow.c:2923-2988 | takes one argument exactly when the prefix, as far as the parser counts it, fits the field: 32 bits of byte count without a bit-mask, the whole number with one; otherwise the stack is restored |
| `FlowContext.Parser.ParseBoolean` | dpdk-stable-18.11.1/app/test-pmd/cmdline_flow.c:4591-4612 | hands a known name to the integer parser as its digit; takes one argument or none, through the nested call |
| `FlowContext.BooleanDigit` | dpdk-stable-18.11.1/app/test-pmd/cmdline_flow.c:4575-4606 | the digit found by table position is the one the name stands for; other text is passed on to the end of the line |
| `FlowContext.Parser.ParseString` | dpdk-stable-18.11.1/app/test-pmd/cmdline_flow.c:4377-4442 | takes exactly three arguments or restores all it popped, also with one or two on the stack and when the nested length parse fails |
| `FlowContext.Parser.ParseAddress` | dpdk-stable-18.11.1/app/test-pmd/cmdline_flow.c:4450-4483 | MAC and IPv6 addresses take one argument exactly for an unmasked network-order field of the right size |
| `FlowContext.Parser.ParseIpv4` | dpdk-stable-18.11.1/app/test-pmd/cmdline_flow.c:4491-4529 | an IPv4 address, or an integer through the nested parser; one argument taken or none |
| `FlowContext.Parser.ParseAction` | dpdk-stable-18.11.1/app/test-pmd/cmdline_flow.c:4192-4224 | an action name takes one argument or none |
| `FlowContext.Parser.ParsePort` | dpdk-stable-18.11.1/app/test-pmd/cmdline_flow.c:4615-4637 | a port number, with a temporary object when there is no buffer; one argument taken or none |
| `FlowContext.Parser.ParseRssType` | dpdk-stable-18.11.1/app/test-pmd/cmdline_flow.c:3319-3356 | pushes its list again for a known type, not for `end` |
| `FlowContext.Parser.ParseRssQueue` | dpdk-stable-18.11.1/app/test-pmd/cmdline_flow.c:3363-3408 | the argument made up for the integer parser is gone on every path; at most 32 queues; the list is pushed again except for `end` |
| `FlowContext.Parser.ParsePrefixParameter` | dpdk-stable-18.11.1/app/test-pmd/cmdline_flow.c:3166-3173 | puts the prefix length in the place of the list below the top and leaves every other entry alone, or fails with fewer than two lists |
| `FlowContext.Parser.TryToken` | dpdk-stable-18.11.1/app/test-pmd/cmdline_flow.c:4838-4843 | dispatches a candidate; records whether it ever popped an empty stack |
| `FlowContext.Parser.TryCandidates` | dpdk-stable-18.11.1/app/test-pmd/cmdline_flow.c:4833-4846 | tries the top list in order on the two arrays; on a typed stack no candidate pops an empty stack |
| `FlowContext.Parser.Bring` | dpdk-stable-18.11.1/app/test-pmd/cmdline_flow.c:4849-4864 | pops one list and pushes the token's lists and arguments, or reports overflow |
| `FlowContext.Parser.ParseWord` | dpdk-stable-18.11.1/app/test-pmd/cmdline_flow.c:4791-4865 | a whole call of the parser refines the word-level specification and never starves |
| `FlowContext.Parser.IsFinished` | dpdk-stable-18.11.1/app/test-pmd/cmdline_flow.c:4967-4994 | no further token is expected exactly when the stack is empty after a token, or the line ends and the top list may end |
| `FlowContext.Parser.ParseLine` | dpdk-stable-18.11.1/app/test-pmd/cmdline_flow.c:4775-4994 | any line on a fresh context: no pop of an empty stack, no overflow, arguments equal needs |
| `FlowTable.TableWellTyped` | dpdk-stable-18.11.1/app/test-pmd/cmdline_flow.c:1154-1720 | the excerpt of the token table is well typed, stacks and object sizes |
| `FlowTable.TokenTyped` | dpdk-stable-18.11.1/app/test-pmd/cmdline_flow.c:1154-2346 | every single token of the excerpt is well typed: what it brings, through which modes it leads, and that its arguments lie inside the object it makes current |
| `FlowTable.FlowLinesAreSafe` | dpdk-stable-18.11.1/app/test-pmd/cmdline_flow.c:1154-2346 | every line over these tokens keeps the stacks balanced and bounded and the buffer safe |
| `FlowTable.FlowValuesLand` | dpdk-stable-18.11.1/app/test-pmd/cmdline_flow.c:1154-2346 | the same for every line over these tokens: no field, setting, attribute or port is ever stored outside its own object, nor is any RSS queue, whose argument is made up; in other commands every argument lies inside the bound object |
| `FlowTable.FieldsAreSpelled` | dpdk-stable-18.11.1/app/test-pmd/cmdline_flow.c:1510-1720 | every field of every item is spelled with a parameter and a value of its own kind, or with `prefix` and a prefix length: `src prefix 24` never reads 24 as an address |
| `FlowTable.FieldsSuit` | dpdk-stable-18.11.1/app/test-pmd/cmdline_flow.c:1510-1720 | every field has arguments its value callback can store through: a known integer size or non-empty bit-mask, an address field of the right size, a string with a length |
| `FlowTable.SettingsSuit` | dpdk-stable-18.11.1/app/test-pmd/cmdline_flow.c:2209-2335 | the same for every action setting |
| `FlowTable.OpenEnds` | dpdk-stable-18.11.1/app/test-pmd/cmdline_flow.c:4967-4994 | a line may end after any number of groups or named rules, and never where a command, port, rule, item or action is due |
| `FlowTable.FieldsInsideObjects` | dpdk-stable-18.11.1/app/test-pmd/cmdline_flow.c:1510-1720 | every argument of every item field lies inside its item's object, with a mask as long as the field |
| `FlowTable.SettingsInsideBlocks` | dpdk-stable-18.11.1/app/test-pmd/cmdline_flow.c:2209-2335 | every argument of every action setting lies inside its action's block |
| `FlowTable.QueuesInsideBlock` | dpdk-stable-18.11.1/app/test-pmd/cmdline_flow.c:3378-3389 | the argument made up for an RSS queue lies inside the action's block if and only if its index is below 32; behind the key, no two overlapping |
| `FlowTable.RawPatternSpellings` | dpdk-stable-18.11.1/app/test-pmd/cmdline_flow.c:1510-1556 | `pattern is s` never equals `pattern spec s` with `pattern mask t`, for any string and any mask: `is` sets all bits of the length's mask, a mask string stores its own length there |
| `FlowArena.CommandIsSafe` | dpdk-stable-18.11.1/app/test-pmd/cmdline_flow.c:3032-3135 | arena safety: after any command, accepted or refused, in a buffer of any size, all item records, action records and data blocks are pairwise disjoint, lie inside the buffer behind its header, and pointers aim at their own record's block |
| `FlowArena.CommandIsExact` | dpdk-stable-18.11.1/app/test-pmd/cmdline_flow.c:3032-3197 | an accepted command leaves exactly the items and actions it names, in order, with blocks of three times (once) the object size, and spec/last/mask pointers set to the thirds of the own block exactly for the objects given |
| `FlowArena.RecordsPacked` | dpdk-stable-18.11.1/app/test-pmd/cmdline_flow.c:3074-3122 | no space is wasted: items start at the first aligned address behind the header, actions at the first one behind the items, and every block ends less than 8 bytes below the one before it |
| `FlowArena.StepGood` | dpdk-stable-18.11.1/app/test-pmd/cmdline_flow.c:3032-3197 | every callback keeps the arena invariant and the phase of the command |
| `FlowArena.RefusedOnlyWhenFull` | dpdk-stable-18.11.1/app/test-pmd/cmdline_flow.c:3095-3122 | a record is refused if and only if no 8-aligned place is left between the records and the data |
| `FlowArena.SpellingsShareObjects` | dpdk-stable-18.11.1/app/test-pmd/cmdline_flow.c:3139-3197 | `is` aims the same item pointers at the same objects as `spec` followed by `mask` or `prefix` |
| `FlowArena.RepeatedSectionsMoveNothing` | dpdk-stable-18.11.1/app/test-pmd/cmdline_flow.c:3074-3089 | a repeated `pattern` or `actions` moves no record |
| `FlowArena.ItemBeforePattern` | dpdk-stable-18.11.1/app/test-pmd/cmdline_flow.c:3095-3112 | an item accepted before `pattern` would be written at address 0: the token order is needed |
| `FlowArena.FlowBuffer.Section` | dpdk-stable-18.11.1/app/test-pmd/cmdline_flow.c:3046-3093 | command, attribute and section tokens as state changes |
| `FlowArena.FlowBuffer.AddRecord` | dpdk-stable-18.11.1/app/test-pmd/cmdline_flow.c:3095-3135 | item and action tokens as state changes |
| `FlowArena.FlowBuffer.Aim` | dpdk-stable-18.11.1/app/test-pmd/cmdline_flow.c:3139-3197 | item parameters as state changes |
| `FlowArena.FlowBuffer.Parse` | dpdk-stable-18.11.1/app/test-pmd/cmdline_flow.c:3032-3197 | a whole command on the buffer object: it runs the specification, the result is safe, and exact when accepted |
| `FlowFields.BfFill` | dpdk-stable-18.11.1/app/test-pmd/cmdline_flow.c:2866-2902 | spreads a value over the masked bits in either byte order, returns the number of masked bits; with no destination it only counts |
| `FlowFields.GatherScatter` | dpdk-stable-18.11.1/app/test-pmd/cmdline_flow.c:2866-2902 | round trip: gathering the masked bits in the same order gives the value modulo 2^bits |
| `FlowFields.ScatterFrame` | dpdk-stable-18.11.1/app/test-pmd/cmdline_flow.c:2889-2898 | bits outside the mask are untouched |
| `FlowFields.AllSlotsCount` | dpdk-stable-18.11.1/app/test-pmd/cmdline_flow.c:2866-2902 | the number of masked bits visited is the population count of the mask |
| `FlowFields.SlotsOrdered` | dpdk-stable-18.11.1/app/test-pmd/cmdline_flow.c:2878-2900 | no bit is visited twice |
| `FlowFields.FullMaskStore` | dpdk-stable-18.11.1/app/test-pmd/cmdline_flow.c:2866-2902 | with an all-ones mask the stored bytes stand for the value in the declared byte order |
| `FlowFields.IntBytesValue` | dpdk-stable-18.11.1/app/test-pmd/cmdline_flow.c:4330-4355 | the bytes of a plain integer store stand for the value modulo 2^(8*size) in the declared byte order |
| `FlowMasks.StorePrefix` | dpdk-stable-18.11.1/app/test-pmd/cmdline_flow.c:2958-2981 | the fill, clear and convert path, for given byte and bit counts, writes the prefix bytes and nothing else |
| `FlowMasks.PrefixBits` | dpdk-stable-18.11.1/app/test-pmd/cmdline_flow.c:2943-2953 | the value built bit by bit in 64 bits: 2^w - 2^(w-u) cut to 64 bits wherever its shift is defined, and the number itself if and only if the mask has at most 64 bits or the prefix is empty |
| `FlowMasks.BuiltExact` | dpdk-stable-18.11.1/app/test-pmd/cmdline_flow.c:2943-2953 | the same for every value that the 64-bit computation may leave |
| `FlowMasks.PrefixFits64` | dpdk-stable-18.11.1/app/test-pmd/cmdline_flow.c:2943-2953 | that value fits 64 bits if and only if the mask has at most 64 bits or the prefix is empty |
| `FlowMasks.PrefixBytesValue` | dpdk-stable-18.11.1/app/test-pmd/cmdline_flow.c:2963-2979 | the prefix bytes stand for the right number in either byte order |
| `FlowMasks.PrefixPathsAgree` | dpdk-stable-18.11.1/app/test-pmd/cmdline_flow.c:2943-2981 | with an all-ones mask both mask generators leave the same bytes if and only if the field has at most 8 bytes or the prefix is empty; the bytes stand for 2^w - 2^(w-u) |
| `FlowMasks.NineBytesDisagree` | dpdk-stable-18.11.1/app/test-pmd/cmdline_flow.c:2943-2981 | a nine-byte field on which they differ |
| `FlowMasks.StoredExact` | dpdk-stable-18.11.1/app/test-pmd/cmdline_flow.c:2943-2984 | what is stored is the prefix mask asked for if and only if, with a bit-mask, at most 64 bits are masked or the prefix is empty, and, without one, the prefix is below 2^35 |
| `FlowMasks.MaskedExact` | dpdk-stable-18.11.1/app/test-pmd/cmdline_flow.c:2943-2957 | the masked half of it: the value built in 64 bits stores the prefix mask exactly when it fits |
| `FlowMasks.ByteCount` | dpdk-stable-18.11.1/app/test-pmd/cmdline_flow.c:2961-2965 | the 32-bit byte count and the remaining bits stand for the prefix modulo 2^35, and the size test is that this is at most the field |
| `FlowMasks.HugePrefixes` | dpdk-stable-18.11.1/app/test-pmd/cmdline_flow.c:2961-2981 | on an IPv4 address a prefix of 2^35 is accepted and stores the empty prefix, 2^35 + 32 the full one, 33 is refused |
| `FlowMasks.StoreInt` | dpdk-stable-18.11.1/app/test-pmd/cmdline_flow.c:4322-4357 | the storing half of the integer parser: exact success condition, exact bytes, nothing else changed |
| `FlowMasks.StoreValue` | dpdk-stable-18.11.1/app/test-pmd/cmdline_flow.c:4322-4365 | the whole store of the integer parser: the value into the current object and all ones into the mask object if there is one, each leaving every other byte alone, or nothing at all |
| `FlowMasks.StorePrefixField` | dpdk-stable-18.11.1/app/test-pmd/cmdline_flow.c:2942-2984 | the storing half of the prefix parser: exact success condition (modulo 2^35 without a bit-mask), the bytes stored, nothing else changed, and exactly when those are the prefix mask asked for |
| `FlowMasks.SameStore` | dpdk-stable-18.11.1/app/test-pmd/cmdline_flow.c:4322-4357 | two numbers leave the same bytes if and only if they agree on the bits the field has |
| `FlowMasks.PrefixIsInt` | dpdk-stable-18.11.1/app/test-pmd/cmdline_flow.c:2942-2984 | a prefix mask equals the corresponding number stored as an integer, masked or not |
| `FlowMasks.EquivalentSpellings` | dpdk-stable-18.11.1/app/test-pmd/cmdline_flow.c:4322-4365 | `is v` equals `spec v` with `mask w` if and only if w has all bits set that the field and a 64-bit number share, and `spec v` with an accepted `prefix u` if and only if u (modulo 2^35 on unmasked fields) is the full width, for fields of any width |
| `FlowMasks.EquivalentAddressMasks` | dpdk-stable-18.11.1/app/test-pmd/cmdline_flow.c:4516-4524 | for addresses, a mask address equals the 0xFF fill of `is` if and only if it is all ones; a prefix of any size is accepted and equals it if and only if it is the full width modulo 2^35 |
| `FlowStrings.StoreString` | dpdk-stable-18.11.1/app/test-pmd/cmdline_flow.c:4400-4436 | the storing half of the string parser: exact success condition; length, padded bytes and their address in the object, all ones for the length and for as many bytes as the string has in the mask object, or nothing at all |
| `FlowStrings.StringReadBack` | dpdk-stable-18.11.1/app/test-pmd/cmdline_flow.c:4400-4436 | a stored string can be read back: bytes, zeros behind them, their number and their address |
| `FlowStrings.StringSpellings` | dpdk-stable-18.11.1/app/test-pmd/cmdline_flow.c:4400-4436 | `is s` equals `spec s` with `mask t` if and only if the length of t sets all bits of the length field and its padded bytes are all ones for s and the old mask behind it |
| `FlowStrings.NeverEquivalent` | dpdk-stable-18.11.1/app/test-pmd/cmdline_flow.c:4400-4436 | so never where the length field can hold more than the data field |
| `FwdConfig.SetupLcores` | dpdk-stable-18.11.1/app/test-pmd/config.c:1843-1881 | each lcore gets the range of streams the formula gives, in 8- and 16-bit arithmetic; division by zero if and only if there are streams and no lcore |
| `FwdConfig.RangesEnd` | dpdk-stable-18.11.1/app/test-pmd/config.c:1843-1881 | the ranges tile all streams if and only if there are no more lcores than streams |
| `FwdConfig.OneOwner` | dpdk-stable-18.11.1/app/test-pmd/config.c:1843-1881 | every stream belongs to exactly one lcore |
| `FwdConfig.Balanced` | dpdk-stable-18.11.1/app/test-pmd/config.c:1843-1881 | shares differ by at most one, never shrink from one lcore to the next, and contain only existing streams |
| `FwdConfig.TooManyLcores` | dpdk-stable-18.11.1/app/test-pmd/config.c:1855-1858 | with more lcores than streams an lcore is handed a stream that does not exist |
| `FwdConfig.TopologyBijection` | dpdk-stable-18.11.1/app/test-pmd/config.c:1883-1911 | each topology is a bijection on the ports; the paired one is an involution whose only fixed point is an odd last port |
| `FwdConfig.TopologyMeaning` | dpdk-stable-18.11.1/app/test-pmd/config.c:1883-1911 | the paired topology joins ports 2k and 2k + 1, the chained one visits the ports in ascending order from port 0 and returns to it after the last, the loop keeps each port's traffic |
| `FwdConfig.RssSetup` | dpdk-stable-18.11.1/app/test-pmd/config.c:1951-1994 | the configured streams and lcore ranges, with the stream count truncated to 16 bits; division by zero if and only if there are streams and no lcore is configured |
| `FwdConfig.FillRss` | dpdk-stable-18.11.1/app/test-pmd/config.c:1976-1993 | the loop that advances port and queue writes stream after stream as specified |
| `FwdConfig.RssStreamAt` | dpdk-stable-18.11.1/app/test-pmd/config.c:1976-1993 | the streams of a queue follow those of the queues before it, port by port, each feeding the topology's port on the same queue number |
| `FwdConfig.RssRxUnique` | dpdk-stable-18.11.1/app/test-pmd/config.c:1976-1993 | no receive queue is polled by two streams |
| `FwdConfig.RssTxUnique` | dpdk-stable-18.11.1/app/test-pmd/config.c:1976-1993 | no transmit queue is fed by two streams |
| `FwdConfig.RssServesAll` | dpdk-stable-18.11.1/app/test-pmd/config.c:1960-1970 | every (port, queue) pair is served if and only if their number fits the 16-bit stream count |
| `FwdConfig.RssRaceFree` | dpdk-stable-18.11.1/app/test-pmd/config.c:1951-1994 | race freedom: each receive and transmit queue has a stream, no two streams share either, and each stream belongs to exactly one lcore |
| `FwdConfig.IcmpSetup` | dpdk-stable-18.11.1/app/test-pmd/config.c:2083-2137 | the configured streams and lcore ranges of the ICMP echo mode; division by zero if and only if there are streams and either no lcore is configured or there is no transmit queue |
| `FwdConfig.NoTransmitQueue` | dpdk-stable-18.11.1/app/test-pmd/config.c:2091-2112 | one receive queue and no transmit queue divides by zero |
| `FwdConfig.FillIcmp` | dpdk-stable-18.11.1/app/test-pmd/config.c:2113-2136 | lcore by lcore, the loop writes every stream as specified and leaves the ranges alone |
| `FwdConfig.FillLcore` | dpdk-stable-18.11.1/app/test-pmd/config.c:2117-2135 | the streams of one lcore, with port and queue carried on to the next |
| `FwdConfig.IcmpUnique` | dpdk-stable-18.11.1/app/test-pmd/config.c:2113-2136 | no queue is polled by two streams |
| `FwdConfig.IcmpServes` | dpdk-stable-18.11.1/app/test-pmd/config.c:2113-2136 | every (port, receive queue) pair has its stream |
| `FwdConfig.IcmpTxQueuesExist` | dpdk-stable-18.11.1/app/test-pmd/config.c:2120-2134 | the transmit queue of every stream exists if and only if there are no more receive than transmit queues |
| `FlowRules.Port.Create` | dpdk-stable-18.11.1/app/test-pmd/config.c:1168-1207 | a new rule goes to the head with the next identifier; every error leaves the list alone, and the device keeps the flow only if its destruction failed |
| `FlowRules.Port.Destroy` | dpdk-stable-18.11.1/app/test-pmd/config.c:1209-1251 | terminates; the list keeps, in order, exactly the rules not destroyed; without an error those are the rules not requested; the device was asked to destroy exactly the requested rules, those it agreed to are those gone, and an error is reported if and only if it refused one |
| `FlowRules.Port.TryDestroy` | dpdk-stable-18.11.1/app/test-pmd/config.c:1226-1248 | asks the device once per entry that names the rule, up to the first success |
| `FlowRules.Port.Walk` | dpdk-stable-18.11.1/app/test-pmd/config.c:1222-1249 | the walk through the link to the current rule, unlinking on the way |
| `FlowRules.Port.Unlink` | dpdk-stable-18.11.1/app/test-pmd/config.c:1242-1243 | unlinking one rule removes it from the linked list and nothing else |
| `FlowRules.Port.Flush` | dpdk-stable-18.11.1/app/test-pmd/config.c:1253-1277 | the list ends up empty |
| `FlowRules.WalkEnd` | dpdk-stable-18.11.1/app/test-pmd/config.c:1209-1251 | a completed walk leaves the rules kept, identifiers still strictly decreasing |
| `FlowRules.KeepMembers` | dpdk-stable-18.11.1/app/test-pmd/config.c:1209-1251 | exactly the rules whose identifiers were not requested are kept |
| `FlowRules.Port.List` | dpdk-stable-18.11.1/app/test-pmd/config.c:1344-1387 | the listing is a permutation of the wanted rules, which are those of the named groups or all; group, priority and identifier read as one number increase strictly, whatever the old links; the rule list is unchanged |
| `FlowRules.FindPlace` | dpdk-stable-18.11.1/app/test-pmd/config.c:1371-1382 | the first place whose rule does not come before the new one |
| `FlowRules.OrderedInsert` | dpdk-stable-18.11.1/app/test-pmd/config.c:1371-1384 | inserting there keeps the order and adds exactly one rule |
| `FlowRules.BeforeIsSmaller` | dpdk-stable-18.11.1/app/test-pmd/config.c:1371-1382 | the order of the listing is that of group, priority and identifier read as one number |
| `FlowRules.WantedExactly` | dpdk-stable-18.11.1/app/test-pmd/config.c:1355-1366 | a rule is wanted if and only if it is in the list and its group is named or none is |
| `McastPool.Port.Extend` | dpdk-stable-18.11.1/app/test-pmd/config.c:3452-3486 | one more entry, or nothing changed; capacity covers the count rounded up to 32 |
| `McastPool.Port.AddAddress` | dpdk-stable-18.11.1/app/test-pmd/config.c:3521-3547 | appends a new address if there is room, otherwise changes nothing; the driver gets the pool |
| `McastPool.Port.RemoveEntry` | dpdk-stable-18.11.1/app/test-pmd/config.c:3488-3504 | closes the gap, or drops the pool with its last entry |
| `McastPool.Port.RemoveAddress` | dpdk-stable-18.11.1/app/test-pmd/config.c:3549-3574 | removes the address, the others in order |
| `McastPool.Port.Replay` | dpdk-stable-18.11.1/app/test-pmd/config.c:3452-3574 | any history of commands leaves the recorded addresses of the specification |
| `McastPool.RecordedNoDuplicates` | dpdk-stable-18.11.1/app/test-pmd/config.c:3521-3574 | no history leaves a duplicate |
| `McastPool.RecordedByHistory` | dpdk-stable-18.11.1/app/test-pmd/config.c:3521-3574 | an address is recorded if and only if some addition of it found room and no removal followed |
| `McastPool.RecordedInOrder` | dpdk-stable-18.11.1/app/test-pmd/config.c:3452-3574 | the recorded addresses come in the order of their last effective additions |
| `McastPool.PutByUnique` | dpdk-stable-18.11.1/app/test-pmd/config.c:3521-3574 | that addition is unique, so the order is determined by the history |
| `RegisterFields.DisplayAfterSet` | dpdk-stable-18.11.1/app/test-pmd/config.c:943-1049 | what is displayed after a set is the value set |
| `RegisterFields.PutBits` | dpdk-stable-18.11.1/app/test-pmd/config.c:1040-1048 | setting a field changes exactly its bits |
| `RegisterFields.OtherFieldsKept` | dpdk-stable-18.11.1/app/test-pmd/config.c:943-1049 | a field that does not overlap keeps its value |
| `RegisterFields.Device.SetField` | dpdk-stable-18.11.1/app/test-pmd/config.c:1011-1049 | refused exactly for a bad register, position or value; otherwise the field holds the value and no other register changes |
| `RegisterFields.Device.DisplayField` | dpdk-stable-18.11.1/app/test-pmd/config.c:943-971 | shows the field, for positions in either order |
| `Throughput.Refill` | dpdk-stable-18.11.1/app/test-crypto-perf/cperf_test_throughput.c:151-182 | after the bulk allocation and the conditional memmove the front of `ops[]` holds a full burst of distinct owned operations, the new ones followed by the leftovers in order |
| `Throughput.Round` | dpdk-stable-18.11.1/app/test-crypto-perf/cperf_test_throughput.c:143-228 | one iteration, for any device: the leftovers and the operations allocated for them are offered together in one burst, what the device takes and what it hands back is what is counted, what it refuses is left over again, the partition holds and the 16-bit count of needed operations does not underflow |
| `Throughput.Recycle` | dpdk-stable-18.11.1/app/test-crypto-perf/cperf_test_throughput.c:209-226 | one dequeue, whose operations go back to the pool; the partition is kept |
| `Throughput.RunBurstSize` | dpdk-stable-18.11.1/app/test-crypto-perf/cperf_test_throughput.c:143-246 | ownership is conserved on every exit; the totals are the numbers of operations that the device took and handed back in the calls made, every burst offered is as large as possible; after the drain every operation is back in the pool and the unused slice is empty |
| `Throughput.Drain` | dpdk-stable-18.11.1/app/test-crypto-perf/cperf_test_throughput.c:230-246 | the drain: an empty burst and a dequeue per poll, until everything is back |
| `Throughput.Run` | dpdk-stable-18.11.1/app/test-crypto-perf/cperf_test_throughput.c:133-246 | over all burst sizes up to the first too large one: completion leaves the pool whole and the device has taken and handed back the configured number of operations for each size |
| `CryptoTestbed.Offer` | dpdk-stable-18.11.1/app/test-crypto-perf/cperf_test_throughput.c:195-206 | one enqueue of the whole burst; the device takes a prefix, the rest stays with the application |
| `CryptoTestbed.SplitOffer` | dpdk-stable-18.11.1/app/test-crypto-perf/cperf_test_throughput.c:195-206 | a prefix taken by the device keeps the partition |
| `CryptoTestbed.BalancedEnqueue` | dpdk-stable-18.11.1/app/test-crypto-perf/cperf_test_throughput.c:195-206 | over any calls, the device holds exactly what it was given and has not handed back: kept by an enqueue |
| `CryptoTestbed.BalancedDequeue` | dpdk-stable-18.11.1/app/test-crypto-perf/cperf_test_throughput.c:209-221 | the same, kept by a dequeue |
| `CryptoTestbed.FlowConcat` | dpdk-stable-18.11.1/app/test-crypto-perf/cperf_test_throughput.c:143-246 | the operations moved by two series of calls are those of the one followed by those of the other |
| `Latency.Bench.OpenSlots` | dpdk-stable-18.11.1/app/test-crypto-perf/cperf_test_latency.c:236-245 | accepted operations get consecutive result slots with their start time |
| `Latency.Bench.StoreTimestamp` | dpdk-stable-18.11.1/app/test-crypto-perf/cperf_test_latency.c:113-121 | one write, to the slot of a pending operation, which had never been stamped; its stamp count becomes one |
| `Latency.Bench.CloseSlots` | dpdk-stable-18.11.1/app/test-crypto-perf/cperf_test_latency.c:247-250 | each returned operation stamps exactly its own slot, a stamped slot keeps its count and its end time |
| `Latency.OpenSlot` | dpdk-stable-18.11.1/app/test-crypto-perf/cperf_test_latency.c:236-245 | a new slot keeps open slots in one-to-one correspondence with pending operations |
| `Latency.CloseSlot` | dpdk-stable-18.11.1/app/test-crypto-perf/cperf_test_latency.c:113-121 | closing a slot keeps the correspondence and raises a count of zero by one |
| `Latency.Bench.Round` | dpdk-stable-18.11.1/app/test-crypto-perf/cperf_test_latency.c:181-265 | one iteration: the whole burst is offered between two readings of the clock, operations taken are started with the first and operations handed back end with the second; the correspondence between unstamped slots and operations in the device, the partition, and every end time already stored are kept |
| `Latency.Bench.Exchange` | dpdk-stable-18.11.1/app/test-crypto-perf/cperf_test_latency.c:209-234 | clock, enqueue, dequeue, clock, and the refused operations back to the pool, in this order |
| `Latency.Bench.RunBurstSize` | dpdk-stable-18.11.1/app/test-crypto-perf/cperf_test_latency.c:181-289 | on completion each result slot was stamped exactly once, with end >= start, still shows the time it was stamped with, and the pool is whole; on every exit the totals are the numbers of operations the device took and handed back in the calls made |
| `Latency.Bench.Drain` | dpdk-stable-18.11.1/app/test-crypto-perf/cperf_test_latency.c:267-289 | one poll of the drain: an empty burst, a dequeue and a reading of the clock |
| `Latency.AllStampedOnce` | dpdk-stable-18.11.1/app/test-crypto-perf/cperf_test_latency.c:181-289 | with nothing pending and all slots opened, every stamp count is one |
| `CycleCount.BuildOps` | dpdk-stable-18.11.1/app/test-crypto-perf/cperf_test_pmd_cyclecount.c:190-224 | allocates in bursts of the right sizes; a failure leaves the operations allocated so far |
| `CycleCount.BenchEnq` | dpdk-stable-18.11.1/app/test-crypto-perf/cperf_test_pmd_cyclecount.c:227-254 | offers the array slice by slice until the device takes nothing; the accepted operations are a prefix of the array |
| `CycleCount.BenchDeq` | dpdk-stable-18.11.1/app/test-crypto-perf/cperf_test_pmd_cyclecount.c:257-278 | dequeues as many operations as were taken, in any order, into the front of the array, without overwriting refused ones |
| `CycleCount.DeqStep` | dpdk-stable-18.11.1/app/test-crypto-perf/cperf_test_pmd_cyclecount.c:257-278 | one dequeue keeps the two slices distinct and the ownership split |
| `CycleCount.BenchOps` | dpdk-stable-18.11.1/app/test-crypto-perf/cperf_test_pmd_cyclecount.c:135-187 | the alloc-build-free pass over one ring: every burst is given back before the next, all operations are built unless an allocation fails, the pool is whole either way |
| `CycleCount.BuildAndFree` | dpdk-stable-18.11.1/app/test-crypto-perf/cperf_test_pmd_cyclecount.c:304-314 | the same over all operations: on completion as many were built and given back as are configured |
| `CycleCount.Cycle` | dpdk-stable-18.11.1/app/test-crypto-perf/cperf_test_pmd_cyclecount.c:326-370 | one iteration: what it allocated, offered, drained and gave back, call by call; a failed allocation, an unfinished drain and completion each leave a complete account of the operations |
| `CycleCount.CycleLoop` | dpdk-stable-18.11.1/app/test-crypto-perf/cperf_test_pmd_cyclecount.c:326-370 | each iteration gives back exactly the operations it allocated, after a partial enqueue too; on every exit each operation is in the pool, in the device or in one of two known slices of the array, and the device has taken and handed back what is counted |
| `CycleCount.RunBurstSize` | dpdk-stable-18.11.1/app/test-crypto-perf/cperf_test_pmd_cyclecount.c:281-377 | both passes: completion leaves the pool whole, and on every exit each operation is in exactly one place and the counts are those of the device |
| `CryptoSetup.QueuePairsLeast` | dpdk-stable-18.11.1/app/test-crypto-perf/main.c:110-112 | the number of queue pairs per device is the least that serves every worker |
| `CryptoSetup.Assign` | dpdk-stable-18.11.1/app/test-crypto-perf/main.c:545-569 | workers get distinct (device, queue pair) places, device by device, until all are taken |
| `CryptoSetup.EveryWorkerPlaced` | dpdk-stable-18.11.1/app/test-crypto-perf/main.c:110-112 | there are places for all workers |
| `CryptoSetup.Accumulate` | dpdk-stable-18.11.1/app/test-crypto-perf/main.c:582-589 | the accumulated distribution in 16 bits |
| `CryptoSetup.Choose` | dpdk-stable-18.11.1/app/test-crypto-perf/main.c:592-600 | picks the first size whose total exceeds the residue, always a valid index |
| `CryptoSetup.ImixExact` | dpdk-stable-18.11.1/app/test-crypto-perf/main.c:582-600 | each size is selected by exactly as many residues as its weight if and only if the weights sum to at most 65535 |
| `SplitCopy.CopySplit` | dpdk-stable-18.11.1/app/test-pmd/csumonly.c:514-574 | copies segment by segment; success exactly when the source is used up; contents are the pieces of the specification |
| `SplitCopy.PktCopySplit` | dpdk-stable-18.11.1/app/test-pmd/csumonly.c:580-655 | a result is a chain of exactly `nb_segs` distinct mbufs whose concatenated data is the source; there is one if and only if the mempool supplies the mbufs and the source segments can be cut into the planned lengths; otherwise every allocated mbuf is freed exactly once; says exactly when the first mbuf is overrun, and that an empty packet or an empty list of segments has no defined result |
| `SplitCopy.PlanSegments` | dpdk-stable-18.11.1/app/test-pmd/csumonly.c:593-616 | the segment lengths used and their total, or, exactly for an empty packet or no configured segment, the access before the array |
| `SplitCopy.AllocSegments` | dpdk-stable-18.11.1/app/test-pmd/csumonly.c:624-636 | allocates from the last segment to the first and stops exactly at the first allocation that fails or mbuf that is too small |
| `SplitCopy.SuppliedExactly` | dpdk-stable-18.11.1/app/test-pmd/csumonly.c:624-640 | all segments get an mbuf if and only if the mempool has one for each, every one but the first large enough |
| `SplitCopy.PiecesFlat` | dpdk-stable-18.11.1/app/test-pmd/csumonly.c:514-574 | nothing is lost, repeated or reordered and no segment gets more than its length |
| `SplitCopy.EverySegmentUsed` | dpdk-stable-18.11.1/app/test-pmd/csumonly.c:514-655 | a successful copy uses every planned segment |
| `SplitCopy.OneSegmentFits` | dpdk-stable-18.11.1/app/test-pmd/csumonly.c:514-574 | a one-segment packet is always split when the lengths suffice |
| `SplitCopy.CopiedExactly` | dpdk-stable-18.11.1/app/test-pmd/csumonly.c:514-574 | a source of any number of segments is copied if and only if its segment lengths are covered in turn by runs of the destination lengths, a condition on lengths alone |
| `SplitCopy.TwoIntoOneFails` | dpdk-stable-18.11.1/app/test-pmd/csumonly.c:514-574 | two 10-byte segments are not copied into one of 20 bytes, since a destination segment never spans two source segments |
| `SplitCopy.OnlyFirstOverruns` | dpdk-stable-18.11.1/app/test-pmd/csumonly.c:624-636 | with the tailroom check, at most the first mbuf can be overrun |
| `SplitCopy.FirstTailroomUnchecked` | dpdk-stable-18.11.1/app/test-pmd/csumonly.c:624-640 | the failed tailroom check of segment 0 looks like success: a concrete overrun |
| `Dissector.OffloadInfo.ParseIpv4` | dpdk-stable-18.11.1/app/test-pmd/csumonly.c:101-118 | refines the IPv4 specification on the shared record |
| `Dissector.OffloadInfo.ParseIpv6` | dpdk-stable-18.11.1/app/test-pmd/csumonly.c:120-137 | refines the IPv6 specification |
| `Dissector.OffloadInfo.ParseEthernet` | dpdk-stable-18.11.1/app/test-pmd/csumonly.c:139-175 | refines the Ethernet and VLAN specification |
| `Dissector.OffloadInfo.ParseVxlan` | dpdk-stable-18.11.1/app/test-pmd/csumonly.c:178-204 | refines the VXLAN specification |
| `Dissector.OffloadInfo.ParseVxlanGpe` | dpdk-stable-18.11.1/app/test-pmd/csumonly.c:207-268 | refines the VXLAN-GPE specification |
| `Dissector.OffloadInfo.ParseGre` | dpdk-stable-18.11.1/app/test-pmd/csumonly.c:271-328 | refines the GRE specification, optional words included |
| `Dissector.OffloadInfo.ParseEncapIp` | dpdk-stable-18.11.1/app/test-pmd/csumonly.c:331-357 | refines the IP-in-IP specification |
| `Dissector.OffloadInfo.DissectPacket` | dpdk-stable-18.11.1/app/test-pmd/csumonly.c:768-815 | runs the parsers in the source's order and returns the offset of the innermost L3 header |
| `PacketGrammar.DissectInvertsEncode` | dpdk-stable-18.11.1/app/test-pmd/csumonly.c:101-357 | main theorem: for every packet of the grammar, whatever follows it in memory and whatever an earlier packet left in the record, the dissector finds the encoder's ethertypes and lengths, and the innermost L3 packet lies at outer_l2 + outer_l3 + l2 |
| `PacketGrammar.TunnelledParses` | dpdk-stable-18.11.1/app/test-pmd/csumonly.c:776-810 | the same for tunnelled packets |
| `PacketGrammar.PlainParses` | dpdk-stable-18.11.1/app/test-pmd/csumonly.c:768-775 | the same for packets without a tunnel |
| `PacketGrammar.TunnelsLeftAlone` | dpdk-stable-18.11.1/app/test-pmd/csumonly.c:776-815 | with tunnel parsing off, every tunnelled packet is dissected up to its outer L4 protocol and no further, and the outer L3 header is the one used |
| `PacketGrammar.OtherFrameParses` | dpdk-stable-18.11.1/app/test-pmd/csumonly.c:139-175 | a frame without IP, tagged or not, leaves no length or protocol of an earlier packet behind |
| `PacketGrammar.InnerOtherFrame` | dpdk-stable-18.11.1/app/test-pmd/csumonly.c:178-204 | the same inside a tunnel |
| `PacketGrammar.UdpTunnelExactly` | dpdk-stable-18.11.1/app/test-pmd/csumonly.c:776-793 | a UDP packet is taken for a tunnel if and only if tunnel parsing is on and it goes to the VXLAN-GPE port with a known next protocol, to the VXLAN port, or is marked by the driver |
| `PacketGrammar.OtherTunnelExactly` | dpdk-stable-18.11.1/app/test-pmd/csumonly.c:793-810 | any other packet if and only if tunnel parsing is on and it is GRE around IP or Ethernet, or IP in IP with a known version |
| `PacketGrammar.GreParses` | dpdk-stable-18.11.1/app/test-pmd/csumonly.c:271-328 | every combination of checksum, key and sequence words is skipped exactly |
| `PacketGrammar.GpeParses` | dpdk-stable-18.11.1/app/test-pmd/csumonly.c:207-268 | VXLAN-GPE with IPv4, IPv6 and Ethernet inside |
| `PacketGrammar.VxlanParses` | dpdk-stable-18.11.1/app/test-pmd/csumonly.c:178-204 | VXLAN with a frame inside |
| `PacketGrammar.IpIpParses` | dpdk-stable-18.11.1/app/test-pmd/csumonly.c:331-357 | IP in IP; the outer L4 protocol keeps its old value |
| `PacketGrammar.IpInIpExactly` | dpdk-stable-18.11.1/app/test-pmd/csumonly.c:800-806 | an IP packet inside an outer IP header with any protocol number but those of UDP and GRE is recognised as a tunnel, and its offset found, if and only if the number is 4 |
| `PacketGrammar.Ipv6InIpMissed` | dpdk-stable-18.11.1/app/test-pmd/csumonly.c:676-680 | every IPv6-in-IP packet with the assigned protocol number 41 is missed, although the documentation lists it |
| `PacketGrammar.SampleMissed` | dpdk-stable-18.11.1/app/test-pmd/csumonly.c:676-680 | one such packet, byte by byte |
| `PacketGrammar.InnermostOffset` | dpdk-stable-18.11.1/app/test-pmd/csumonly.c:811-815 | the computed offset is that of the encoder |
| `Checksum.IpSum` | dpdk-stable-18.11.1/app/test-pmd/flowgen.c:89-106 | the accumulator never leaves 32 bits, early folding changes nothing, and the result is the complement of the one's-complement sum of the bytes, even places counting once and odd places 256 times |
| `Checksum.OnesSumIsCanon` | dpdk-stable-18.11.1/app/test-pmd/flowgen.c:89-106 | the one's-complement sum is the integer sum modulo 65535, with 65535 for non-zero multiples |
| `Checksum.WordsWeigh` | dpdk-stable-18.11.1/app/test-pmd/flowgen.c:89-106 | the words read from a header sum to its bytes, weighed by their place, without an odd last one |
| `Checksum.StoredChecksumVerifies` | dpdk-stable-18.11.1/app/test-pmd/flowgen.c:180-193 | a stored word makes a header with a zero checksum field verify if and only if it is the computed checksum (or the other zero) |
| `Checksum.SingleWordChangeDetected` | dpdk-stable-18.11.1/app/test-pmd/flowgen.c:180-193 | changing one word of a valid header goes unnoticed only between the two zeros |
| `Checksum.OrderIndependent` | dpdk-stable-18.11.1/app/test-pmd/flowgen.c:89-106 | invariant under permutation of the words (section 2 of RFC 1071) |
| `Checksum.ByteOrderIndependent` | dpdk-stable-18.11.1/app/test-pmd/flowgen.c:89-106 | byte-swapping all words byte-swaps the sum (section 2 of RFC 1071) |
| `Checksum.MatchesRfc1071` | dpdk-stable-18.11.1/app/test-pmd/flowgen.c:89-106 | agrees with the sum of RFC 1071, stated over bytes, exactly for even lengths or a trailing zero byte: an odd byte is ignored |
| `FlowGen.FinishedHeaderVerifies` | dpdk-stable-18.11.1/app/test-pmd/flowgen.c:180-193 | storing the checksum at bytes 10 and 11 makes the header verify |
| `FlowGen.BlankReads` | dpdk-stable-18.11.1/app/test-pmd/flowgen.c:180-191 | a receiver reads from the header, in network order, version 4 with 20 bytes, the length, 64 hops, UDP, the source and the destination |
| `FlowGen.Generator.MakeFrame` | dpdk-stable-18.11.1/app/test-pmd/flowgen.c:180-193 | a finished header reads the same and its checksum verifies, byte by byte |
| `FlowGen.BackOutExact` | dpdk-stable-18.11.1/app/test-pmd/flowgen.c:232-236 | the counter ends at (old + sent) mod n if and only if no more was sent than generated, modulo n |
| `FlowGen.TransmittedExactly` | dpdk-stable-18.11.1/app/test-pmd/flowgen.c:215-226 | the numbers of frames that a port may end up having taken are exactly those that some series of answers leads to |
| `FlowGen.Generator.Transmit` | dpdk-stable-18.11.1/app/test-pmd/flowgen.c:215-226 | the burst is offered once and what is missing to the number received up to `retry` times more |
| `FlowGen.CounterFollowsExactly` | dpdk-stable-18.11.1/app/test-pmd/flowgen.c:215-236 | whatever the port takes the counter follows the packets sent, if and only if retry is off, allows no attempt or is bounded by the packets generated, or there is one flow |
| `FlowGen.GaplessExactly` | dpdk-stable-18.11.1/app/test-pmd/flowgen.c:164-236 | whatever the port takes the round robin stays gapless, if and only if retry is off, allows no attempt or is bounded by the packets generated |
| `FlowGen.RetryPastGeneratedSkipsFlow` | dpdk-stable-18.11.1/app/test-pmd/flowgen.c:219-236 | sending two frames when one was generated skips a flow |
| `FlowGen.Generator.Fill` | dpdk-stable-18.11.1/app/test-pmd/flowgen.c:164-213 | as many consecutive flows as asked for and as there are mbufs, each with a header that reads right and verifies; the counter advances by the packets generated |
| `FlowGen.Generator.BackOut` | dpdk-stable-18.11.1/app/test-pmd/flowgen.c:232-236 | backs the counter out modulo n |
| `FlowGen.Generator.Burst` | dpdk-stable-18.11.1/app/test-pmd/flowgen.c:115-243 | one call, for any mempool and any port: what was generated, sent and freed; round robin without gaps is kept if retry is off, allows no attempt or is bounded by what was generated, and only if no more was sent than generated |
| `FlowGen.StaysGapless` | dpdk-stable-18.11.1/app/test-pmd/flowgen.c:164-241 | the k-th packet ever accepted targets the k-th address of the cycle |
| `CleanQEcho.EchoFlagsMeaning` | benchmark_cleanq_udp/main.c:294-298 | an echo carries its own port bits, as a transmission and not as a reception |
| `CleanQEcho.Echo.Enqueue` | benchmark_cleanq_udp/main.c:261-273 | a transmission or a reception by its flags, or a failure; a transmission is logged as it crosses the interface, with the very flags handed over |
| `CleanQEcho.Echo.FillRx` | benchmark_cleanq_udp/main.c:168-195 | buffers are queued until one less than the ring has places, or until an allocation or enqueue is refused; every buffer is queued for reception or free again |
| `CleanQEcho.Echo.Dequeue` | dpdk-stable-18.11.1/lib/libcleanq_udp/src/cleanq_module_ip.c:214-292 | hands out a received buffer, logged with its flags, or a finished transmission, or nothing; a dropped packet's buffer stays queued or, when its unchecked re-enqueue is refused, is lost and counted |
| `CleanQEcho.Echo.Drop` | dpdk-stable-18.11.1/lib/libcleanq_udp/src/cleanq_module_ip.c:253-285 | a packet dropped inside the library goes back to reception or is lost, everything else unchanged |
| `CleanQEcho.Echo.Receive` | benchmark_cleanq_udp/main.c:244-275 | polls until a burst was handed out or nothing was; collects distinct buffers, exactly the packets the queue handed out as received, in order, each with the flags it came with; recycles finished transmissions |
| `CleanQEcho.Echo.Recycle` | benchmark_cleanq_udp/main.c:261-273 | the unchecked re-enqueue: the buffer circulates again or is lost |
| `CleanQEcho.Echo.SendBack` | benchmark_cleanq_udp/main.c:289-311 | offers the echoes of the packets given in order, each buffer with its own port bits; what is transmitted is exactly the echo of a prefix, and only after a refusal are the others freed, each once |
| `CleanQEcho.Echo.Round` | benchmark_cleanq_udp/main.c:240-311 | polls to the end, then of the packets received in the round a prefix is echoed and, after a refusal, the buffers of the rest are freed; circulation shrinks exactly by the buffers freed and lost |
| `CleanQEcho.Echo.Run` | benchmark_cleanq_udp/main.c:168-311 | over any number of rounds every buffer is in exactly one place; nothing is lost if and only if no re-enqueue was refused, by the application or inside a dequeue; and every transmission ever made answers a reception, in order and each at most once, with that reception's buffer and port bits |
| `CleanQEcho.Circulation` | benchmark_cleanq_udp/main.c:240-311 | what stopped circulating is what was freed or lost |
| `CleanQEcho.AnswersMore` | benchmark_cleanq_udp/main.c:240-311 | answering a prefix of new receptions keeps transmissions matched to receptions in order |
| `CleanQEcho.NothingLost` | benchmark_cleanq_udp/main.c:168-311 | no loss means receive queue, transmit queue and pool are everything |

## Left out
- The EAL, ethdev, cryptodev, mempool, mbuf and CleanQ libraries: they appear as contracts only.
- Printing, option parsing, completion callbacks and help texts.
- Flow parser: the token table is an excerpt (all commands and attributes, five items, four actions with their fields); other items and actions repeat the same token shapes.
- Flow parser: splitting a line into words; each word comes with its length and whether the command may end with it.
- Flow parser: which keyword callbacks fail for lack of buffer space is left open in the stack model, so its statements hold for every such choice; the space itself is the subject of `FlowArena`.
- FlowContext.Parser.ParseInt: decides and moves arguments only; the bytes stored are the subject of `FlowMasks.StoreValue`, those of prefixes of `FlowMasks.StorePrefixField` and those of strings of `FlowStrings.StoreString`.
- FlowContext.Parser.ParseAddress: the plain copy of an address, and of an action's type in a query, is not modelled as a store; what a copied address leaves in a mask is the subject of `FlowMasks.EquivalentAddressMasks`.
- FlowStrings.StoreString: an address field has at most the 8 bytes of a pointer.
- FlowArena.CommandIsSafe: addresses do not wrap around; subtracting an object size from the data address stays within the address space.
- FlowTargets.ValuesLandInObjects: the objects that the other commands bind (the header, one rule or group entry) are given by their size only.
- FlowMasks.StorePrefixField: the size of a field is below 2^32 - 1 bytes, so that adding the partial byte to the 32-bit byte count does not wrap.
- FlowArena.FlowBuffer.Parse: a refused token ends the command; what further candidates of the same word would see after a refused record is not modelled.
- Flow parser: the growing rule and group arrays of destroy and list, and the header templates written by the encapsulation actions.
- FlowFields.BfFill: models a little-endian CPU, as the source's conditional code for one does.
- FlowMasks.PrefixBits: shifting a non-zero value by 64 places or more has no defined result in the source and may leave any value in the model; shifting 0 leaves 0.
- FlowMasks.EquivalentSpellings: says nothing of a prefix whose mask is built by such an undefined shift.
- RegisterFields.Device.SetField: for a field of 31 bits the source shifts a signed 1 by 31 places, which C leaves undefined; the model takes the mask 2^31 - 1 that compilers produce, here and in `DisplayField`.
- McastPool.Port.Extend: does not model the 32-bit wrap-around of the address count.
- FlowRules.Port.Flush: port numbers are valid; the source refuses others before it touches a list.
- FlowRules.Port.Create: the copies of attributes, pattern and actions inside a rule are not modelled beyond group and priority.
- FwdConfig.RssSetup: the simple, DCB and softnic setups are not part of this model; DCB depends on tables supplied by drivers.
- SplitCopy.PktCopySplit: VLAN and offload fields of the copy are not modelled. Random splitting is covered, since the list of segment lengths is arbitrary.
- PacketGrammar.DissectInvertsEncode: the encoder announces IP in IP with protocol number 4, the only one the source recognises (`IpInIpExactly`); the stale outer L4 protocol after IP in IP is stated as such.
- Software checksums computed by library functions.
- Latency.Bench.RunBurstSize: statistics over the result slots, which only read them.
- CycleCount.RunBurstSize: cycle and timing figures.
- The verification runner and the multi-segment buffer fill of the crypto benchmarks: their loops do not keep the properties proved here for their counterparts.
- CryptoSetup.Choose: a total of zero divides by zero in the source; the model returns no size.
- CleanQEcho.Echo.Run: one queue; several ports repeat it.
- The plain echo programs, `udp_bench`, the event, bbdev, meter and traffic-management tools.
