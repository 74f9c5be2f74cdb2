# Models and proofs of the study repository's algorithms

The repository is a collection of independent C, C++ and assembly programs. This project models the ones that hold
real algorithms and proves what they are for. `dafny verify dfyconfig.toml` checks everything.

- **AES with tables and CBC** (`aes-encode/Aes.c`; `Aes*.dfy`). `AesField` is the byte algebra of FIPS 197, `AesSbox`
  the substitution table of the source and its inverse, `AesSboxDefinition` the proof that the table is the affine map
  of the field inverse. `AesSpec` states Cipher, the Equivalent Inverse Cipher and the key expansion as the standard
  does, `AesExamples` works its examples; `AesTables`, `AesBlock`, `AesKeys` and `AesCbc` are the imperative code, proved against it.
- **CSME stop-and-wait protocol** (`af_csmencaps.c`; `Csme*.dfy`). `CsmeChannel` has the handlers, `CsmeNetwork` two
  endpoints over links that may lose or repeat packets. One direction of the network is a flow (`CsmeFlow`), its
  invariants are in `CsmeSafety` and `CsmeDelivery`, progress in `CsmeProgress`, the retransmission timer in `CsmeTimer`, the walk over the commands
  of a message in `CsmeNtoh`.
- **Kaleidoscope** (`llvm/c3.cpp`; `Kal*.dfy`). `KalParser` is the lexer and parser over global state, proved against
  the functions of `KalLexer` and `KalGrammar`; `KalRoundTrip` proves that printing and parsing are inverse;
  `KalCodegen` and `KalModule` lower to instruction lists and prove that meaning is preserved; `KalDeclared` says what
  becomes of a definition whose name was declared or defined before.
- **64-by-32-bit division** (`arm/bsp/lib/div64.S`; `Bits.dfy`, `Div64.dfy`), the `__LINUX_ARM_ARCH__ 1` path, register
  by register.
- **Internet checksum** (`tcpip/raw/ping.c`; `Checksum.dfy`).
- **TFTP upload** (`tcpip/udp/tftp.c`; `Tftp*.dfy`): the adaptive timeout, `tftp_put` against every list of events, and
  the client against a lock-step server over lossy, repeating links.
- **Number formatting and its parser** (`arm/bsp/lib/printf.c`, `makebin/fillfile.c`; `Numeral.dfy`, `Number*.dfy`):
  `NumberEnds` has the numbers for which the digit loop ends, `NumberRoundTrip` those that are read back.
- **AER injector** (`aer-utils/aer_drv/aer_inject.c`; `Aer*.dfy`): error records, the overlay of PCI configuration
  operations, injection and unloading; `AerHistory` has what the registers of a root port tell after any run.
- **Buffered line reader** (`tcpip/tcp/client.c`; `LineReader.dfy`).

Code that changes state in place is modelled by classes and methods over arrays and fields; each method's contract ties
its new state to a specification function, and the lemmas are about those functions. Clocks, sockets, the file system
and memory allocation appear as parameters or as lists of what they do.

Findings about the code, each stated by a lemma:

- `aer_inj_write_config` clears status bits with exclusive or, so a write of ones clears exactly those bits if and only
  if all of them were set (`AerErrors.StatusWriteClears`).
- `readline` returns one more than the bytes it stored exactly when the next `maxlen - 1` bytes of the stream hold no
  newline (`LineReader.ReturnCounts`).
- `tftp_put` can reach the division by the file size exactly when the file is empty, and return 0 exactly when it is not
  (`TftpTransfer.DividesExactlyWhenEmpty`); without losses an empty file always does (`TftpTransfer.FaultlessRunCompletes`).
- `tftp_put` waits for ever for the reply to its write request exactly when nothing is on its way and no request reached
  the server (`TftpTransfer.WaitsForEver`); losing the request is such an input (`TftpTransfer.LostRequestHangs`).
- `in_cksum` is the one's complement checksum exactly when the plain sum fits 32 bits
  (`Checksum.RightExactlyBelowLimit`); 65538 words of 0xffff are an input for which it is not (`Checksum.SumWraps`). The
  program itself never gets there: its only caller sums at most the 1500 bytes of `sendbuf` (`ping.c:20-22`).
- A CSME queue stalls exactly when its head is removed and leaves a suppressed message in front of others
  (`CsmeTimer.StallsExactly`, over whole runs `CsmeTimer.StalledRun`), which happens when suppression is toggled
  (`CsmeTimer.TogglingStalls`).
- A CSME message of opcode NOOP is accepted for sending but never acknowledged, so that it is sent 26 times and given up;
  messages of every other opcode are answered (`CsmeProgress.OneRound`, `CsmeProgress.EveryMessageIsAnswered`).
- `simple_strtoul` reads a zero-padded decimal back only below 8 (`NumberRoundTrip.DecimalReadsBack`).
- The digit loop of `number` ends in bases 8, 10 and 16 exactly for the numbers that fit a `long` and have their sign
  flag if negative: not for an unsigned number from 2^31 on (`NumberEnds.PrintfEnds`, for all bases
  `NumberEnds.EndsExactly`).
- A Kaleidoscope definition that follows a declaration is compiled as its own text says exactly when both put every
  variable of the body in the same place (`KalDeclared.DeclaredCode`); `extern f(a b)` followed by `def f(b a) a - b` is
  an input for which they do not (`KalDeclared.SwappedDeclaration`). A redefinition never changes what the first body
  computes (`KalDeclared.FirstBodyStays`).

## Model

| member | source | states |
|---|---|---|
| `AesSbox.SboxInverse` | aes-encode/Aes.c:10-46 | the table that inverts Sbox undoes it for every byte, and Sbox undoes that table |
| `AesSboxDefinition.SboxIsAffineOfInverse` | aes-encode/Aes.c:10-27 | every entry of Sbox is the affine map of the byte's inverse in the field (FIPS 197, section 5.1.1) |
| `AesField.MulDistributes` | aes-encode/Aes.c:33-33 | multiplication built from xtime distributes over exclusive or |
| `AesField.SmallProducts` | aes-encode/Aes.c:50-66 | the sums of doublings the code forms are the field products by 2, 3, 9, 11, 13 and 14 |
| `AesField.InvMixColumnDistributes` | aes-encode/Aes.c:139-156 | InvMixColumns is linear: of a sum it is the sum |
| `AesField.UnmixMix` | aes-encode/Aes.c:49-71 | InvMixColumns inverts MixColumns on every column |
| `AesTables.TWords` | aes-encode/Aes.c:50-56 | the four T words of a byte are the four columns of the MixColumns matrix times it |
| `AesTables.DWords` | aes-encode/Aes.c:59-70 | the four D words of a byte are the four columns of the InvMixColumns matrix times it |
| `AesTables.Tables.Invert` | aes-encode/Aes.c:45-46 | the loop inverts any permutation of the bytes in place |
| `AesTables.Tables.GenTables` | aes-encode/Aes.c:42-73 | afterwards T, D and InvS hold what the rounds rely on, all 1024, 1024 and 256 entries |
| `AesBlock.HT4` | aes-encode/Aes.c:75-80 | a column of a table round is MixColumns of the substituted bytes plus the round key |
| `AesBlock.HD4` | aes-encode/Aes.c:91-96 | a column of an inverse table round is InvMixColumns of the inversely substituted bytes plus the round key |
| `AesBlock.HT16` | aes-encode/Aes.c:82-86 | one full round of Cipher from one block of words to another |
| `AesBlock.HD16` | aes-encode/Aes.c:98-102 | one full round of the Equivalent Inverse Cipher |
| `AesSpec.RowsShift` | aes-encode/Aes.c:77-86 | ShiftRows takes the byte in row r and column c from column (c + r) mod 4 of its row |
| `AesSpec.InvRowsShift` | aes-encode/Aes.c:93-102 | InvShiftRows takes it from column (c - r) mod 4 |
| `AesBlock.LastRound` | aes-encode/Aes.c:177-177 | the last round of Cipher, without MixColumns |
| `AesBlock.LastInvRound` | aes-encode/Aes.c:197-197 | the last round of the inverse cipher |
| `AesBlock.AesEncode32` | aes-encode/Aes.c:158-178 | the words of dest are Cipher (FIPS 197, section 5.1) of the words src held, also when both are the same block |
| `AesExamples.CipherExample` | aes-encode/Aes.c:158-178 | the cipher on the key and block of FIPS 197, Appendix B, through all ten rounds |
| `AesBlock.AesDecode32` | aes-encode/Aes.c:180-198 | the words of dest are EqInvCipher (section 5.3.5) of the words src held, also when both are the same block |
| `AesKeys.RconEntry` | aes-encode/Aes.c:31-31 | entry j of Rcon is x to the power j - 1 in the field |
| `AesSpec.PowersOfX` | aes-encode/Aes.c:31-31 | the constant at the j-th multiple of the key length is the field product of j - 1 factors x |
| `AesSpec.KeyWordBytes` | aes-encode/Aes.c:124-136 | every word of the key expansion byte by byte: at multiples of the key length Sbox of bytes 1, 2, 3, 0 of the last word and a power of x, for 32-byte keys half way between Sbox of its bytes in place |
| `AesKeys.NextWord` | aes-encode/Aes.c:129-134 | the summand of a key word is what section 5.2 of FIPS 197 prescribes, for all three key sizes |
| `AesKeys.CAes.SetKeyEncode` | aes-encode/Aes.c:107-137 | rkey holds the key expansion of section 5.2 and the round count fits the key size |
| `AesExamples.Example192` | aes-encode/Aes.c:107-137 | the expansion of the 24-byte key of FIPS 197, Appendix A.2 |
| `AesExamples.Example256` | aes-encode/Aes.c:107-137 | the expansion of the 32-byte key of Appendix A.3 |
| `AesExamples.Expanded10` | aes-encode/Aes.c:107-137 | the last of the eleven round keys of the 16-byte key of Appendix A.1 |
| `AesKeys.UnmixWord` | aes-encode/Aes.c:149-154 | table D after Sbox is InvMixColumns of the word |
| `AesKeys.CAes.SetKeyDecode` | aes-encode/Aes.c:139-156 | rkey holds the decryption keys: InvMixColumns of every round key but the outer two |
| `AesSpec.InvRoundsMirror` | aes-encode/Aes.c:158-198 | after each inverse round the decryption state is the encryption state of the mirrored round |
| `AesSpec.DecryptEncrypt` | aes-encode/Aes.c:139-208 | under the decryption keys the equivalent inverse cipher undoes the cipher, for every key schedule and block |
| `AesCbc.GetUi32` | aes-encode/Aes.c:213-214 | four bytes read as one little-endian word |
| `AesCbc.SetUi32` | aes-encode/Aes.c:235-238 | a word written over four bytes of the buffer and nothing else |
| `AesCbc.CAesCbc.Init` | aes-encode/Aes.c:210-215 | the chaining value is the initialization vector |
| `AesCbc.CAesCbc.EncodeBlock` | aes-encode/Aes.c:228-238 | one block is replaced by Cipher of its sum with the chaining value, which becomes the ciphertext |
| `AesCbc.CAesCbc.DecodeBlock` | aes-encode/Aes.c:255-270 | one block is replaced by its decryption plus the chaining value, which becomes the ciphertext |
| `AesCbc.CAesCbc.Encode` | aes-encode/Aes.c:217-241 | the buffer is the CBC encryption of its whole blocks, all other bytes unchanged, and the result is the bytes converted or the block size |
| `AesCbc.CAesCbc.Decode` | aes-encode/Aes.c:243-273 | the same for CBC decryption in place |
| `AesCbc.EncryptedBlock` | aes-encode/Aes.c:228-238 | block j of the result is Cipher of block j of the data plus block j - 1 of the result, or the starting value |
| `AesCbc.DecryptedBlock` | aes-encode/Aes.c:255-270 | block j of the result is the inverse cipher of block j of the data plus block j - 1 of the data, or the starting value |
| `AesCbc.BlockBytes` | aes-encode/Aes.c:213-238 | row r and column c of a block are byte r + 4c of its sixteen |
| `AesCbc.ConvertedExactly` | aes-encode/Aes.c:217-225 | the return value is the bytes of all whole blocks, or the size of one when there is none |
| `AesCbc.DecryptUndoesEncrypt` | aes-encode/Aes.c:210-273 | CBC decryption undoes encryption for every key, starting value and length, and leaves the same chaining value |
| `AesCbc.EncryptSplit` | aes-encode/Aes.c:217-241 | successive calls on pieces cut at multiples of 16 encrypt as one call does |
| `AesCbc.DecryptSplit` | aes-encode/Aes.c:243-273 | successive calls on pieces cut at multiples of 16 decrypt as one call does |
| `AesCbc.TailUntouched` | aes-encode/Aes.c:225-240 | the bytes after the last whole block stay as they are |
| `CsmeChannel.Channel.Reset` | driver-bsp/netboot/csmencaps/af_csmencaps.c:364-371 | everything is as on a fresh channel except the retry counter |
| `CsmeChannel.Channel.CsmeTx` | driver-bsp/netboot/csmencaps/af_csmencaps.c:1268-1300 | a message takes the next 4-bit number of its opcode and is sent or queued as Tx says |
| `CsmeChannel.Channel.CsmeTxMsgNext` | driver-bsp/netboot/csmencaps/af_csmencaps.c:756-806 | the new head is sent and the timer armed, or a suppressed head is sent and dropped |
| `CsmeChannel.Channel.HandleChannelTimeout` | driver-bsp/netboot/csmencaps/af_csmencaps.c:814-873 | the head is sent again, or given up after the last retry and the next one sent |
| `CsmeChannel.Channel.CsmeRxAck` | driver-bsp/netboot/csmencaps/af_csmencaps.c:945-995 | only the ack of the head removes it and sends the next message |
| `CsmeChannel.Channel.CsmeRxMsg` | driver-bsp/netboot/csmencaps/af_csmencaps.c:880-937 | a repeated number is acked but not handed up; opcodes outside 1 to 4 are dropped unacked (lines 1067-1087) |
| `CsmeProgress.EveryMessageIsAnswered` | driver-bsp/netboot/csmencaps/af_csmencaps.c:880-937 | in every receiver state a message of opcode 1 to 4 that wants an ack gets exactly one back, with its opcode and number, handed up or repeated; nothing else is answered |
| `CsmeFlow.SameNumber` | driver-bsp/netboot/csmencaps/af_csmencaps.c:1270-1271 | two messages of an opcode share a number exactly when a multiple of 16 of that opcode lies between them |
| `CsmeSafety.StepInv` | driver-bsp/netboot/csmencaps/af_csmencaps.c:756-995 | every handler and every loss or repetition keeps the bookkeeping, timer and order invariants |
| `CsmeDelivery.Discriminates` | driver-bsp/netboot/csmencaps/af_csmencaps.c:880-937 | in lock step the remembered number tells the next message from a repeat of the last, for every opcode |
| `CsmeDelivery.StepLockstep` | driver-bsp/netboot/csmencaps/af_csmencaps.c:756-995 | with acks required every step keeps sender and receiver within one message unless the sender gives up |
| `CsmeNetwork.StepAProjects` | driver-bsp/netboot/csmencaps/af_csmencaps.c:880-1000 | an event at one end of the shared links is one step of each direction on its own |
| `CsmeNetwork.ReliableDelivery` | driver-bsp/netboot/csmencaps/af_csmencaps.c:756-1300 | in every run with acks required and nothing given up, what was delivered is a prefix of what was sent, each message once and in order across opcodes; whatever an ack removed was delivered, and at most one more |
| `CsmeProgress.OneRound` | driver-bsp/netboot/csmencaps/af_csmencaps.c:814-995 | from every reachable state with quiet links one expiry and two arrivals take the head off the queue by an ack, handed up then or before, exactly if its opcode is not NOOP |
| `CsmeProgress.QuickRunCompletes` | driver-bsp/netboot/csmencaps/af_csmencaps.c:756-1300 | from every reachable state with a retry left and no NOOP waiting, every continuation that loses and repeats nothing and lets no timer overtake a packet ends, gives nothing up, and ends only when everything submitted by both ends was delivered once, in order, and acknowledged |
| `CsmeProgress.QuickRunExists` | driver-bsp/netboot/csmencaps/af_csmencaps.c:756-1300 | there is such a continuation |
| `CsmeNetwork.AtMostOnceInOrder` | driver-bsp/netboot/csmencaps/af_csmencaps.c:814-937 | in every run, also with give-up and with acks suppressed, delivery is at most once and in sending order |
| `CsmeNetwork.TimerAndRetries` | driver-bsp/netboot/csmencaps/af_csmencaps.c:54-56 | in every run with acks required the timer is armed exactly while the queue is not empty, retries stay within 0 and 25, and no message is sent more than 26 times |
| `CsmeNetwork.SuppressedSentOnce` | driver-bsp/netboot/csmencaps/af_csmencaps.c:1273-1300 | in every run with acks suppressed nothing is queued and every message is sent exactly once |
| `CsmeNetwork.SymmetricRun` | driver-bsp/netboot/csmencaps/af_csmencaps.c:756-995 | every statement about one end holds of the other: swapping the ends of a run gives the run of the swapped events |
| `CsmeTimer.TimeoutLowers` | driver-bsp/netboot/csmencaps/af_csmencaps.c:814-873 | every timeout lowers retries + 1 + 26 * (length - 1) by one |
| `CsmeTimer.Drains` | driver-bsp/netboot/csmencaps/af_csmencaps.c:814-873 | without acks and new messages the timer fires exactly that often and the queue is then empty |
| `CsmeNetwork.RunDrains` | driver-bsp/netboot/csmencaps/af_csmencaps.c:814-873 | the same of the sender after any run with acks required |
| `CsmeTimer.NextStalls` | driver-bsp/netboot/csmencaps/af_csmencaps.c:793-803 | messages are left waiting with no timer exactly when the head is suppressed and not alone |
| `CsmeTimer.StallsExactly` | driver-bsp/netboot/csmencaps/af_csmencaps.c:756-995 | a queue becomes stalled, or stops being so, exactly by the removal of its head, decided by what is behind it; a stalled queue transmits nothing else |
| `CsmeTimer.StalledRun` | driver-bsp/netboot/csmencaps/af_csmencaps.c:756-995 | in every run, suppression toggled or not, the queue is stalled exactly when the last removal of a head left a suppressed message in front of others |
| `CsmeTimer.TogglingStalls` | driver-bsp/netboot/csmencaps/af_csmencaps.c:793-803 | a concrete run in which toggling suppression strands a message |
| `CsmeNtoh.Ntoh` | driver-bsp/netboot/csmencaps/af_csmencaps.c:556-608 | on every input the loop ends with the count and the new end that Walk gives |
| `CsmeNtoh.WalkCounts` | driver-bsp/netboot/csmencaps/af_csmencaps.c:570-585 | from every command boundary of a well-formed message the walk counts the commands left and stops at the terminator |
| `CsmeNtoh.NtohOfMessage` | driver-bsp/netboot/csmencaps/af_csmencaps.c:1204-1206 | on commands of length 8 or more padded to 4 bytes with the terminator csme_tx appends, the count is right and exactly the terminator is trimmed |
| `KalLexer.TokensOfText` | llvm/c3.cpp:45-93 | lexing undoes writing: tokens are read back from every text of them with blanks and comments anywhere, and none needed between two that do not stick |
| `KalLexer.LexSkipsComment` | llvm/c3.cpp:75-83 | a comment is skipped up to the next newline or carriage return, or to the end of the text |
| `KalParser.Kaleidoscope.GetTok` | llvm/c3.cpp:45-93 | gettok sets the globals to the next token of the characters left, skipping blanks and comments |
| `KalParser.Kaleidoscope.GetNextToken` | llvm/c3.cpp:193-193 | one token is consumed and the end of the input is never passed |
| `KalParser.Kaleidoscope.GetTokPrecedence` | llvm/c3.cpp:200-209 | the precedence of the current token of the stream, -1 when it is no operator |
| `KalParser.Kaleidoscope.ParseParenExpr` | llvm/c3.cpp:232-242 | returns and consumes what the grammar function does, errors included |
| `KalParser.Kaleidoscope.ParseIdentifierExpr` | llvm/c3.cpp:247-278 | returns and consumes what the grammar function does, errors included |
| `KalParser.Kaleidoscope.ParseArgs` | llvm/c3.cpp:256-275 | the argument loop returns and consumes what the grammar function does |
| `KalParser.Kaleidoscope.ParsePrimary` | llvm/c3.cpp:284-295 | returns and consumes what the grammar function does, errors included |
| `KalParser.Kaleidoscope.ParseBinOpRHS` | llvm/c3.cpp:299-332 | the loop that reassigns LHS computes the recursive grammar function |
| `KalParser.Kaleidoscope.ParseExpression` | llvm/c3.cpp:337-343 | returns and consumes what the grammar function does, errors included |
| `KalParser.Kaleidoscope.ParsePrototype` | llvm/c3.cpp:347-367 | returns and consumes what the grammar function does, errors included |
| `KalParser.Kaleidoscope.ParseDefinition` | llvm/c3.cpp:370-379 | returns and consumes what the grammar function does, errors included |
| `KalParser.Kaleidoscope.HandleDefinition` | llvm/c3.cpp:531-542 | reads a definition or skips a token after an error |
| `KalParser.Kaleidoscope.HandleExtern` | llvm/c3.cpp:544-555 | reads a declaration or skips a token after an error |
| `KalParser.Kaleidoscope.HandleTopLevelExpression` | llvm/c3.cpp:557-572 | reads an expression or skips a token after an error |
| `KalParser.Kaleidoscope.MainLoop` | llvm/c3.cpp:575-595 | for every input, well formed or not, the loop ends at the end of the input and has read exactly the items of the program |
| `KalGrammar.ParseExpression` | llvm/c3.cpp:337-343 | every successful parse consumes at least one token, a failed one never gives any back |
| `KalGrammar.TopStep` | llvm/c3.cpp:575-595 | every iteration before the end of the input consumes a token, also after an error |
| `KalRoundTrip.RightOperand` | llvm/c3.cpp:316-327 | comparing with the operator after the right operand is the same as parsing that operand one level higher |
| `KalRoundTrip.ParsePrinted` | llvm/c3.cpp:299-343 | a tree printed with the parentheses level p needs, parsed at any level up to p, is read as that tree before what follows it |
| `KalRoundTrip.ParseExpressionOfPrint` | llvm/c3.cpp:197-343 | every tree over the four operators, calls, names and numbers printed with minimal parentheses is read back, so precedence and left associativity hold for all inputs |
| `KalRoundTrip.OperatorsBind` | llvm/c3.cpp:299-332 | x op1 y op2 z, for any operands, groups to the right exactly for < before + - * and for + - before *, and to the left otherwise |
| `KalRoundTrip.PrintIsShortest` | llvm/c3.cpp:299-343 | whatever tokens an expression was parsed from, its minimal print has no more of them |
| `KalRoundTrip.ProgramOfPrint` | llvm/c3.cpp:347-595 | a printed list of definitions, declarations and expressions is read back item by item |
| `KalRoundTrip.ProgramOfText` | llvm/c3.cpp:45-595 | the same from characters: a printed program, written with any blanks and comments, lexed and parsed, is the program |
| `KalRoundTrip.NamelessSkipsOne` | llvm/c3.cpp:531-555 | when no name follows def or extern, the token there is skipped and nothing else |
| `KalRoundTrip.StraySkipsOne` | llvm/c3.cpp:557-572 | a character that starts no expression is skipped and nothing else |
| `KalRoundTrip.UnclosedSkipsOne` | llvm/c3.cpp:232-242 | so is what stands in the place of a closing parenthesis |
| `KalModule.CodeGenerator.Codegen` | llvm/c3.cpp:412-464 | the methods append the instructions Gen gives and return its operand; null entries that lookups add to NamedValues bind nothing |
| `KalModule.CodeGenerator.CodegenPrototype` | llvm/c3.cpp:466-481 | a new name is declared with one argument for each parameter, a repeated name among them changed as LLVM does |
| `KalModule.CodeGenerator.CodegenFunction` | llvm/c3.cpp:483-515 | the function gets one more block, or is erased when its body fails, which it does exactly when the body does not resolve against the first declaration; repeated parameter names included |
| `KalModule.CodeGenerator.CodegenItem` | llvm/c3.cpp:531-572 | what each kind of top-level item does to the module; an anonymous function is gone again |
| `KalCodegen.GenSucceeds` | llvm/c3.cpp:412-464 | code generation succeeds exactly when all names, arities and operators resolve |
| `KalCodegen.CombineMeans` | llvm/c3.cpp:430-443 | the instructions of an operator compute it |
| `KalCodegen.GenMeans` | llvm/c3.cpp:412-464 | running the emitted instructions after any earlier code gives the value of direct evaluation and the same sequence of calls, for any arithmetic |
| `KalModule.DefinitionMeans` | llvm/c3.cpp:483-515 | a compiled function run on arguments gives the value of its body with the parameters bound to them |
| `KalDeclared.OperatorsCompute` | llvm/c3.cpp:430-443 | def f(a b) a op b, compiled and run on any two integers, gives their sum, difference, product, and 1 or 0 for less |
| `KalDeclared.CallsInOrder` | llvm/c3.cpp:412-464 | calls are made left operand first, with their arguments in order; a body may call its own function |
| `KalDeclared.FailedDefinitionForgets` | llvm/c3.cpp:510-515 | after a definition that failed nothing that calls the function compiles |
| `KalDeclared.SameGen` | llvm/c3.cpp:412-464 | an expression that compiles under two symbol tables compiles to the same instructions exactly when they agree on its variables |
| `KalDeclared.DeclaredCode` | llvm/c3.cpp:484-513 | after a declaration a definition compiles as its own text says exactly when both put every variable of the body in the same place |
| `KalDeclared.DeclaredMeans` | llvm/c3.cpp:484-513 | then running it gives the value of its body under its own parameter names |
| `KalDeclared.SwappedDeclaration` | llvm/c3.cpp:484-513 | a declaration with the names swapped makes the definition compute something else |
| `KalDeclared.FirstBodyStays` | llvm/c3.cpp:483-515 | whatever items follow, a function computes what its first body says unless a later definition of its name fails |
| `Bits.PowerOfTwoTest` | arm/bsp/lib/div64.S:50-53 | a number with no bit in common with its predecessor is a power of two |
| `Div64.Order` | arm/bsp/lib/div64.S:158-174 | four comparisons find the exponent of a power of two |
| `Div64.ShiftDivide` | arm/bsp/lib/div64.S:148-184 | the shifts give quotient and remainder of a division by a power of two |
| `Div64.Align` | arm/bsp/lib/div64.S:75-81 | the divisor is shifted until its double exceeds the upper word, with the matching quotient bit |
| `Div64.UpperLoop` | arm/bsp/lib/div64.S:75-92 | the upper word is divided, also with the early exit at remainder 0 |
| `Div64.SkipZeros` | arm/bsp/lib/div64.S:133-135 | the next one bit of the low word comes up, with as many quotient positions skipped |
| `Div64.ShiftLeft` | arm/bsp/lib/div64.S:105-106 | the shifted remainder is the 33-bit number in carry and xh |
| `Div64.LowerLoop` | arm/bsp/lib/div64.S:95-146 | the 32 low quotient bits and the remainder, through the carry, the zero remainder and the skipped zeros |
| `Div64.DoDiv64` | arm/bsp/lib/div64.S:47-200 | for every dividend and nonzero divisor the loops end with quotient * divisor + remainder = dividend and remainder below the divisor; divisor 0 gives zeros |
| `Checksum.InCksum` | tcpip/raw/ping.c:83-112 | the complement of the folded 32-bit sum, odd last byte included, on hosts of both byte orders |
| `Checksum.SumOfBytes` | tcpip/raw/ping.c:91-103 | the one's complement sum is the sum of the bytes, every other one times 256, folded; a last odd byte counts as the first of a word |
| `Checksum.EveryByteCounts` | tcpip/raw/ping.c:83-112 | changing any one byte changes the checksum |
| `Checksum.ChecksumExample` | tcpip/raw/ping.c:83-112 | the example of section 3 of RFC 1071 |
| `Checksum.TwoFolds` | tcpip/raw/ping.c:107-110 | two folds always suffice for a 32-bit sum |
| `Checksum.OnesSumIsFold` | tcpip/raw/ping.c:91-109 | adding with end-around carry is adding and folding at the end |
| `Checksum.NoWrap` | tcpip/raw/ping.c:87-99 | up to 65537 terms the sum does not wrap and the result is the complement of the one's complement sum |
| `Checksum.RightExactlyBelowLimit` | tcpip/raw/ping.c:83-112 | for any length the result is the checksum of RFC 1071 if and only if the plain sum fits 32 bits |
| `Checksum.SumWraps` | tcpip/raw/ping.c:83-112 | 65538 words of all ones give a wrong result |
| `Checksum.StoredChecksum` | tcpip/raw/ping.c:178-180 | storing the result in a zeroed field makes the checksum of the whole 0 |
| `Checksum.SendV4` | tcpip/raw/ping.c:165-183 | the request sent is type 8, the identifier, the sequence number and the time stamp over the pattern, with the checksum that makes the whole 0; the rest of the buffer is kept |
| `Checksum.EchoFields` | tcpip/raw/ping.c:170-176 | the request field by field and byte by byte |
| `Checksum.SwappedChecksum` | tcpip/raw/ping.c:83-112 | swapping the bytes of every word swaps the bytes of the result |
| `Checksum.SameBytesOnEveryHost` | tcpip/raw/ping.c:83-112 | hosts of either byte order store the same two bytes |
| `TftpRtt.RttInfo.RttInit` | tcpip/udp/tftp.c:50-62 | the first timeout is 3 seconds |
| `TftpRtt.RttInfo.RttStop` | tcpip/udp/tftp.c:85-106 | the new estimates are weighted means with gains 1/8 and 1/4, and the timeout is clamped to 2 to 60 seconds |
| `TftpRtt.RttInfo.RttTimeout` | tcpip/udp/tftp.c:108-115 | the timeout doubles unclamped and the fourth alarm gives up |
| `TftpRtt.StopWeighs` | tcpip/udp/tftp.c:97-106 | new estimates are 7/8 and 3/4 of the old plus the sample and its deviation, the timeout their sum with the deviation four times, between 2 and 60 |
| `TftpRtt.FirstWaits` | tcpip/udp/tftp.c:50-115 | the first packet of a fresh call waits 3, 6, 12 and 24 seconds and is then given up |
| `TftpRtt.StopStaysBetween` | tcpip/udp/tftp.c:97-103 | the smoothed estimates never leave the range of their samples |
| `TftpRtt.AlarmArmed` | tcpip/udp/tftp.c:79-83 | the alarm is never asked for 0 seconds, which would disarm it, nor for more than 480 |
| `TftpClient.Tftp.SendBlock` | tcpip/udp/tftp.c:243-263 | from sendagain to the end of the wait: transmissions, time-outs and rejected datagrams are those of React |
| `TftpClient.Tftp.TftpPut` | tcpip/udp/tftp.c:196-284 | against every list of events the outcome, everything transmitted and the saved estimates are those of the reaction function; after a return the estimates are in range for the next call if they were for this one |
| `TftpTransfer.OnlyTheCurrentAck` | tcpip/udp/tftp.c:257-263 | in every reachable state a datagram is accepted exactly when it acknowledges the block in flight, although numbers are 16 bits wide |
| `TftpTransfer.BlocksOnTheWay` | tcpip/udp/tftp.c:234-243 | in every run each datagram on its way is the request, or the i-th 512 bytes of the file with i modulo 2^16 |
| `TftpTransfer.RunInv` | tcpip/udp/tftp.c:234-283 | what every run keeps: true contents and order on the links, server and client within one block, the state of the wait |
| `TftpTransfer.ClientIsTftpPut` | tcpip/udp/tftp.c:234-283 | the client of the network is tftp_put on the events that reach it, transmission for transmission |
| `TftpTransfer.ServerHoldsPrefix` | tcpip/udp/tftp.c:234-283 | the server's file is always a prefix of the local file, equal to it on return 0 and at the division by zero, and on giving up it lacks at most the part from the block in flight |
| `TftpTransfer.EveryCallSettled` | tcpip/udp/tftp.c:196-200 | in any row of calls that returned, whatever happened in them, the next begins with estimates in range |
| `TftpTransfer.EveryCallHoldsPrefix` | tcpip/udp/tftp.c:196-283 | so in every one of them the server holds a prefix of the file, and all of it on return 0 |
| `TftpTransfer.DividesExactlyWhenEmpty` | tcpip/udp/tftp.c:268-281 | some run divides by zero if and only if the file is empty, and some run returns 0 if and only if it is not |
| `TftpTransfer.SendsAreCaused` | tcpip/udp/tftp.c:108-115 | each block is sent one to four times, each repetition is caused by an alarm, and giving up follows the fourth |
| `TftpTransfer.StaleAckIsSilent` | tcpip/udp/tftp.c:257-263 | a repeated acknowledgement or an error changes nothing but the link it came on (RFC 1123, section 4.2.3.1) |
| `TftpTransfer.AlarmWhileSending` | tcpip/udp/tftp.c:244-265 | an alarm of 2 to 480 seconds is pending exactly while a block is in flight |
| `TftpTransfer.NextPutSettled` | tcpip/udp/tftp.c:196-200 | after return 0 the saved estimates are in range for the next call |
| `TftpTransfer.WaitsForEver` | tcpip/udp/tftp.c:202-229 | in every reachable state that awaits the reply to the request, no continuation ever leaves it if and only if nothing is in transit and the server has no request |
| `TftpTransfer.LostRequestHangs` | tcpip/udp/tftp.c:202-229 | losing the request leads to such a state, whatever follows |
| `TftpTransfer.FaultlessRunCompletes` | tcpip/udp/tftp.c:234-283 | without losses every file arrives whole, beyond 65536 blocks too, and the call returns 0, or divides by zero if the file is empty |
| `NumberFormat.DoDiv` | arm/bsp/lib/printf.c:42-58 | do_div by way of __do_div64 leaves the low word of the quotient of the widened number, negative ones too, and returns the remainder |
| `NumberFormat.DigitStep` | arm/bsp/lib/printf.c:105-106 | on a positive number it takes the last digit off |
| `NumberFormat.DigitLoop` | arm/bsp/lib/printf.c:102-106 | tmp holds the digits, least significant first, at most 31 of its 66 places |
| `NumberFormat.DigitIs` | arm/bsp/lib/printf.c:72-76 | the 36 digits by their character codes |
| `NumberFormat.Number` | arm/bsp/lib/printf.c:69-133 | the field is written at str and nothing else changes; a base outside 2 to 36 writes nothing and returns null |
| `NumberRoundTrip.TextSplits` | arm/bsp/lib/printf.c:109-131 | the field from left to right: blanks, sign, prefix, zeros, digits, blanks, and how many of each |
| `NumberRoundTrip.SignedReadsBack` | arm/bsp/lib/printf.c:69-131 | in bases 2 to 16, for every width, precision and padding, the field read with its sign gives the number; it begins with - exactly if the number is negative and with + exactly if it is not and the flag asks for it |
| `NumberEnds.EndsExactly` | arm/bsp/lib/printf.c:42-106 | the digit loop ends if and only if the number is not negative or the base is one in which the quotient loses its sign |
| `NumberEnds.PrintfEnds` | arm/bsp/lib/printf.c:79-106 | in bases 8, 10 and 16 it ends for exactly the numbers that fit a long and have the sign flag if negative |
| `NumberFormat.TextLength` | arm/bsp/lib/printf.c:79-131 | the field has max(width, sign + prefix + max(precision, digits)) characters |
| `Numeral.ValueOfDigits` | arm/bsp/lib/printf.c:102-106 | the digits denote the number |
| `Numeral.NoLeadingZero` | arm/bsp/lib/printf.c:103-106 | only 0 begins with the digit 0 |
| `NumberFormat.SkipAtoi` | arm/bsp/lib/printf.c:60-67 | the longest run of decimal digits and its value |
| `NumberFormat.DecimalText` | arm/bsp/lib/printf.c:60-106 | skip_atoi reads back what number writes in base 10 |
| `NumberParse.SimpleStrtoul` | makebin/fillfile.c:18-41 | the value of the longest run of digits of the base, guessed when it is 0, modulo the width of unsigned long, and where the run ends |
| `NumberRoundTrip.HexReadsBack` | makebin/fillfile.c:6-41 | a number written in base 16 with its prefix is recognised and read back, whatever width, precision and padding |
| `NumberRoundTrip.OctalReadsBack` | makebin/fillfile.c:6-41 | a number written in base 8 with its prefix is recognised and read back |
| `NumberRoundTrip.DecimalReadsBack` | makebin/fillfile.c:6-41 | a number written in base 10 is read back with base 0 if and only if no zero was put before it or it is below 8 |
| `NumberRoundTrip.GivenBaseReadsBack` | makebin/fillfile.c:18-41 | a number written in base 2 to 16 without prefix is read back when the base is given |
| `NumberRoundTrip.NothingCut` | makebin/fillfile.c:18-41 | what number can convert fits an unsigned long, so none of it is cut off |
| `AerErrors.ReadAfterWrite` | aer-utils/aer_drv/aer_inject.c:140-260 | a write to a shadowed register is seen there and nowhere else, and never changes which accesses are shadowed |
| `AerErrors.StatusWriteClears` | aer-utils/aer_drv/aer_inject.c:249-256 | writing ones to one of the three status registers clears exactly those bits, bit by bit, if and only if all of them were set |
| `AerErrors.InjectionUnique` | aer-utils/aer_drv/aer_inject.c:399-440 | no function ever has two error records |
| `AerErrors.InjectionIsSeen` | aer-utils/aer_drv/aer_inject.c:399-464 | after an injection every register of every function reads as before except the failing function's status and log and its root port's status and source |
| `AerErrors.SevereExactly` | aer-utils/aer_drv/aer_inject.c:454-454 | an uncorrectable error is reported as fatal exactly if some bit is set both in the error and in the severity mask |
| `AerErrors.MaskedExactly` | aer-utils/aer_drv/aer_inject.c:414-431 | an injection is masked exactly if some bit is asked for and every bit asked for is set in the mask |
| `AerHistory.AccessShadowed` | aer-utils/aer_drv/aer_inject.c:140-260 | in every run an access is answered by the function's record exactly when the function took part in an injection and the access is four bytes at its capability plus the register's offset |
| `AerHistory.RootStatusRemembers` | aer-utils/aer_drv/aer_inject.c:227-464 | in every run of injections and configuration writes bits 0 to 6 of the root status tell exactly, on top of what was last written to it, whether one or several correctable and uncorrectable errors were reported since, whether some had a bit in common with the severity mask, some had none, and whether the first uncorrectable one had |
| `AerHistory.SourceRemembers` | aer-utils/aer_drv/aer_inject.c:227-463 | in every run the source register names the function of the last correctable error since it was written in its low half and of the last uncorrectable one in its high half |
| `AerInject.Injector.UpdateFailing` | aer-utils/aer_drv/aer_inject.c:407-412 | the failing function's record, field by field; no other record changes |
| `AerInject.Injector.UpdateRoot` | aer-utils/aer_drv/aer_inject.c:441-464 | the root port's record, bit by bit; no other record changes |
| `AerInject.Injector.FindAerError` | aer-utils/aer_drv/aer_inject.c:91-103 | the first record of the function |
| `AerInject.Injector.FindPciBusOps` | aer-utils/aer_drv/aer_inject.c:115-124 | the operations replaced on the bus |
| `AerInject.Injector.ReadConfig` | aer-utils/aer_drv/aer_inject.c:183-225 | the record's register, or exactly one call of the bus's own operations with them installed meanwhile; nothing else changes |
| `AerInject.Injector.WriteConfig` | aer-utils/aer_drv/aer_inject.c:227-273 | the record's register is written, or exactly one call of the bus's own operations is made |
| `AerInject.Injector.SetAerOps` | aer-utils/aer_drv/aer_inject.c:289-309 | the overlay is installed once, with one entry, and its invariant kept |
| `AerInject.Injector.Pop` | aer-utils/aer_drv/aer_inject.c:126-138 | the first entry leaves the list |
| `AerInject.Injector.Exit` | aer-utils/aer_drv/aer_inject.c:557-576 | every bus has again the operations underneath, none of them the injector's, and both lists are empty |
| `AerInject.Injector.Inject` | aer-utils/aer_drv/aer_inject.c:397-495 | which records and which buses change, for a masked injection and for every failed allocation |
| `AerInject.Injector.InjectRecords` | aer-utils/aer_drv/aer_inject.c:397-464 | an injection is refused as masked exactly when all the correctable or all the uncorrectable bits asked for are masked; then only the failing function's record changed, otherwise its root port's too |
| `AerOverlay.InstallInv` | aer-utils/aer_drv/aer_inject.c:289-309 | at most one entry a bus, none with the injector's operations, one for every bus that has those; what is underneath stays |
| `AerOverlay.UninstallRestores` | aer-utils/aer_drv/aer_inject.c:565-568 | popping all entries gives every bus what is underneath |
| `AerOverlay.RunKeepsOriginals` | aer-utils/aer_drv/aer_inject.c:289-568 | after any run of installations and unloadings the operations underneath are those each bus began with, and unloading restores them |
| `LineReader.OnlyBytesMatter` | tcpip/tcp/client.c:11-29 | how a stream is cut into chunks, and interruptions, make no difference |
| `LineReader.Reader.Refill` | tcpip/tcp/client.c:15-24 | interrupted reads are repeated, and the next chunk, end or error is the next of the stream |
| `LineReader.Reader.MyRead` | tcpip/tcp/client.c:11-29 | successive calls hand out exactly the stream, byte by byte |
| `LineReader.Reader.Readline` | tcpip/tcp/client.c:31-52 | the next line of the stream, or maxlen - 1 bytes of it, is stored with a NUL after it and taken off the stream |
| `LineReader.LineIsPrefix` | tcpip/tcp/client.c:37-48 | the bytes stored are the next of the stream and the rest is what follows them |
| `LineReader.LineShape` | tcpip/tcp/client.c:37-48 | a newline is only ever the last byte stored, and each way of stopping has its length |
| `LineReader.FullExactly` | tcpip/tcp/client.c:37-48 | a call stops with the buffer full exactly on those streams |
| `LineReader.ReturnCounts` | tcpip/tcp/client.c:38-51 | the return value is -1 on an error, and otherwise the number of bytes stored, and one more exactly when the next maxlen - 1 tokens of the stream are bytes without a newline |
| `LineReader.LinesAreTheStream` | tcpip/tcp/client.c:31-52 | the lines of successive calls joined together are the stream, no byte lost or repeated |

## Left out

- KalModule.CodeGenerator.CodegenFunction: how LLVM renames a repeated parameter is a parameter of the model, of which only that the results differ from each other and distinct names stay is used; LLVM's verifier, its constant folding and the erasure of a function that already has callers are not modelled.
- KalModule.CodeGenerator.CodegenPrototype: a second declaration of a name leaves the first alone; the renamed twin LLVM creates can never be looked up and is not kept.
- KalParser.Kaleidoscope.GetTok: number tokens keep their text; strtod is not modelled.
- CsmeNtoh.Ntoh: requires four bytes of room behind the message, because the loop condition reads a whole word before it compares positions.
- CsmeNetwork.ReliableDelivery: channel resets and a change of ack suppression during a run are not among its events.
- CsmeChannel.Channel.CsmeRxMsg: the reset of a channel created on a supervisory response (lines 909-925) is not modelled.
- CsmeChannel.Channel.HandleChannelTimeout: one atomic step; interleavings in which the lock is dropped before the timer is armed, and a failing skb_clone, are not modelled.
- AesBlock.AesEncode32: the key words and the tables may not overlap the block written.
- AesCbc.CAesCbc.Encode: pointers into the buffer are offsets; the buffer may not be one of the tables.
- Checksum.SendV4: sending the buffer is not modelled; the time of day is a parameter, and the message and the time stamp must fit the 1500 bytes of sendbuf.
- Div64.DoDiv64: registers and flags as values, so the clobbered registers and the stack slot of the division by zero are not modelled.
- NumberFormat.Number: requires a number that fits a long and has the sign flag if negative, which in the bases of the printf directives are exactly those for which its loop ends (NumberEnds.PrintfEnds); what it writes for negative numbers without the flag in other bases is not stated; width and precision are unbounded integers.
- NumberFormat.SkipAtoi: overflow of the C int is not modelled.
- TftpRtt.RttInfo.RttStop: seconds are real numbers; rounding of float is not modelled.
- TftpClient.Tftp.TftpPut: opening the file, the text of the request, addresses and ports, and the drawing of the progress bar apart from its division are not modelled; an alarm between arming and sigsetjmp is not either.
- TftpTransfer.ServerHoldsPrefix: the server is the lock-step receiver of sections 2 and 6 of RFC 1350; the starting estimates it requires hold for every call in a row (TftpTransfer.EveryCallSettled).
- AerInject.Injector.Inject: begins after the devices were looked up, their masks read and the memory for two records granted; the interrupt or APEI report at the end and the temporary mask override in the device are not modelled.
- AerInject.Injector.ReadConfig: requires the bus to have the injector's operations, as when the kernel calls it through them; the register offsets and status bits are those of the Linux header pci_regs.h, which is not part of the repository.
- LineReader.Reader.Readline: requires room for at least one byte; maxlen 0 would write outside the buffer.
- vsprintf's format parsing, tftp_get, readlinebuf, and the lookup of CSME targets and channels would add members without harder properties, or depend on kernel and socket calls.
- elf_dwarf, virt, begin-linux, advanced-unix, shell, python, the MDIO and UART tests and the register headers hold wrappers and demonstrations; ucc.c is mostly lookup tables; other copies of the lexer, the division, the checksum and readline repeat the ones modelled.
