# Models of the talker's self-contained algorithms

The talker is a chat server. Most of it formats messages; what is modelled here are the parts that
hold data structures and protocols of their own, one module for each:

- `Disk`, `DiskRuns` and `Records`: the tagged file store. The writer flattens nested sections into
  `path:length:data` entries in order; the reader walks the file once, with at most one tag path read
  ahead, and has to agree with plain lookup. `AliasStore` and `NetStore` are two of its clients.
- `DraughtsBoard`, `DraughtsRules`, `DraughtsTheorems`, `DraughtsKings`, `DraughtsCapture`,
  `DraughtsSymmetry` and `DraughtsGame`: the board in its padded numbering, the rules as the move command
  enforces them, what they keep, when a capture is forced, and the command on bitboards.
- `Getopt` and `GetoptForms`: the in-place exchange of arguments and the option scanner around it, and what
  is returned for every way of writing an option.
- `GetParameter`, `ParameterText` and `AliasExpand`: the quoting parser, what it makes of every line, and
  the expansion that has to survive it.
- `Links`, `AliasList` and `AliasMerge`: the sorted doubly linked list of aliases with its commands, and
  the merge of a player's aliases with the libraries.
- `Colour`: the attribute stack. `NetList`: networks by longest mask. `Editor`: lines with a cached
  cursor. `ChildCom`: messages out of a pipe. `LastLogon`: the ring of recent names.

`CStrings` has `strcmp` and decimal numbers, `Paths` the order of tag paths, `Options` one datatype.

Conventions:

- Code that changes state is a class with the fields of the source; ghost fields hold what the state
  stands for, and `Valid()` and its parts tie the two. Each method's contract gives the new state in
  terms of a reference function (`Lookup`, `Run`, `Part`, `ParseUpto`, `After`, `Best`, `FirstMatch`,
  `Messages`, `LastUses`), and lemmas say what is true of the reference for all inputs.
- A C string is the sequence of bytes in front of its NUL. Integers are unbounded where the source never
  comes near a limit; limits that matter (buffer sizes, counters, the digits of a name) are in the contracts.
- A 32-bit board is the set of its bits; the source uses it only with `|`, `& ~` and shifts of 1.
- An octet masked with a low-bit mask is a remainder.
- Input from outside (bytes of a file, chunks of a pipe, what `poll` says) is a parameter.

What the code does where it and its comments part:

- `user_move_draughts` goes on after `make_final_state` when parameters follow, from the square the last
  hop came from. `ExtraParameterMakesAPiece` shows a command that makes a piece that way;
  `MoverKeepsPiecesIff` says exactly when one is made, and `PiecesConserved` for whole games.
- Three assertions of the move command can be reached by what a player types: `assert(0)` in
  `piece_at_position` by a jump over a hole, even in the first move (`FirstMovesFail`), the one on
  equal squares in `valid_distances` behind a crowning (`ComingBackFails`), and the one on empty parameters in
  `check_position_describer` (`EmptyParameterFails`). `CommandFails` is the exact condition; the model then
  ends the command with the state it has made final so far. `SafeCommand` is a test that rules all three out.
- Behind a step the loop lets captures follow, as long as squares are typed: `Legal` has the rules as they are
  enforced, and `LegalCommand` says that nothing else changes the game.
- The reader counts the two type characters when it asserts that a name is shorter than 32, the writer does
  not: a name of 30 or 31 characters is written but cannot be read (`ReadEach`).
- The loop that skips equal names in `internal_alias_search_next` adds 1 to its counter twice a round, so
  names can come twice (`FoundTwice`). `SearchAll` says exactly when.
- A bit mask of the networks keeps the low bits of the last octet, not the high ones: `AgreesWithPrefix`.
- Loading the networks turns entries with equal masks round (`AnswerChanges`): `Reloaded` says exactly when
  that shows.
- The last of a full array of subscriptions is not saved (`LastIsLost`): `AliasStore.SaveAndLoad`.
- `edit_delete_line` on line 0 leaves the wrong line cached (`WrongLineCached`): `DeleteLine` says exactly when.
- Saves beyond the capacity of the attribute stack are lost while their restores are not (`SaveAtTheTop`):
  `SaveRestores`.
- An alias can be renamed to a name with a leading backslash, and then be deleted only after it has been
  renamed again: `RemovableIff`, `RemovedAsAnother`.
- `%@` without `-n` reads the slot in front of the parameter array; `QuotingFromZero` says what that makes of
  the round trip where pointers have 32 bits.
- A message longer than the pipe's buffer, and all behind it, is never received, and a hang-up loses what is
  in the buffer but for a message whose terminator is cached: both are in the contract of `ReceiveAll`.
- The message for too few parameters of a move does not end the command, so `UserMove` needs one only.

## Model

| member | source | states |
|---|---|---|
| CStrings.StrLtTrichotomy | src/disk.c:346-360 | `strcmp` orders tags totally: of two different ones exactly one comes first |
| CStrings.PadIncreasing | src/alias.c:586-590 | `%04d` names compare under `strcmp` like their numbers, while these have no more digits than the width |
| CStrings.NamesIncreaseIff | src/alias.c:586-590 | the names of 1, 2, ... count all increase exactly if the last has no more digits than the width, 9999 for `%04d` |
| CStrings.PadInjective | src/disk.c:779-849 | two numbers are never written as the same digits |
| CStrings.ValueOfPad | src/extern/extern-disk.h:70-93 | reading back the digits written for a number gives that number |
| Paths.PathLtAsymmetric | src/disk.c:346-360 | comparing paths name by name is asymmetric, so no path is both before and after another |
| Paths.DoneOutside | src/disk.c:69-91 | leaving a section: whatever had been passed inside it has been passed outside |
| Paths.DoneBelow | src/extern/extern-disk.h:53-54 | a name greater than the last one of its section makes a path that is above all that was passed |
| Disk.LookupHit | src/disk.c:234-344 | in a strictly ordered file a path names one entry, so plain lookup is well defined |
| Disk.Missed | src/disk.c:234-344 | once the next entry is beyond a path, no entry of the file has that path |
| Disk.Decide | src/disk.c:286-316 | the comparison of the first component that differs decides the order of two whole paths |
| Disk.AppendEntry | src/disk.c:723-750 | one more entry behind all others keeps the file strictly ordered, and its bytes are the old ones and then the new entry's |
| Disk.EntryInBytes | src/disk.c:723-750 | an entry as it stands in a file, byte by byte |
| Disk.FileIo.ForWriting | src/disk.c:36-46 | a new file is empty and no section is open |
| Disk.FileIo.ForReading | src/disk.c:36-46 | reading starts before the first entry, with no tag path read ahead |
| Disk.FileIo.FileSectionBeg | src/disk.c:48-67 | entering a section whose name is greater than the last one keeps what the reader or writer has passed below everything in it |
| Disk.FileIo.FileSectionEnd | src/disk.c:69-91 | leaving restores the prefix and the last name of the section around |
| Disk.FileIo.PutEntryTag | src/disk.c:723-739 | the bytes written are the components with their types, separated by '.' and ended by ':' |
| Disk.FileIo.PutEntry | src/disk.c:723-750 | the file grows by exactly one entry under the open sections, and stays strictly ordered and equal to its bytes |
| Disk.FileIo.FilePutString | src/disk.c:772-777 | a string entry holds exactly the bytes given, whatever '.', ':' or newline they contain |
| Disk.FileIo.FilePutNumber | src/disk.c:779-849 | a number entry holds the decimal digits of the number with its sign |
| Disk.FileIo.FilePutBitflag | src/disk.c:851-863 | a flag entry holds 1 or 0 |
| Disk.FileIo.GetEntryLength | src/disk.c:104-119 | exactly the decimal length and its ':' are read |
| Disk.FileIo.FinishGetEntry | src/disk.c:93-102 | the newline behind the data is passed and nothing more |
| Disk.FileIo.SkipEntry | src/disk.c:156-162 | exactly the rest of the entry is passed, even when its data has newlines or colons |
| Disk.FileIo.SkipRestTag | src/disk.c:164-172 | the rest of a tag path is passed up to its ':' |
| Disk.FileIo.GetEntryNextTag | src/disk.c:206-232 | exactly one component is read and the separator behind it returned |
| Disk.FileIo.ReadComponent | src/disk.c:174-232 | exactly one component is read and its type cut off; the assertion on its length fails exactly if the name has 30 or more characters |
| Disk.FileIo.ReadComponents | src/disk.c:268-325 | the loop stops behind the last component of the tag path, or where a component shows that the entry comes before the request |
| Disk.FileIo.ReadTagPath | src/disk.c:259-343 | the tag path of the next entry is compared with the request on the way; a smaller entry is skipped as a whole, another is read to its ':' and the sign of the result is the order of the paths; the assertion on the length of names holds exactly if all names that are read are short: of a skipped entry those up to the first that differs |
| Disk.FileIo.CheckEntryTag | src/disk.c:346-360 | a tag path read ahead is compared exactly: 0 for the same path, otherwise the order of the paths |
| Disk.FileIo.CheckReadAhead | src/disk.c:245-257 | an entry read ahead is kept, used or skipped, and if it is kept the file has no entry for the request |
| Disk.FileIo.SeekEntry | src/disk.c:259-344 | the scan stops at the requested entry or reports that the whole file does not hold it; only the names it reads need to be short |
| Disk.FileIo.GetEntryTag | src/disk.c:234-344 | found means the reader stands at that entry; not found means plain lookup finds nothing either |
| Disk.FileIo.FileGetString | src/disk.c:468-495 | the stored string cut to the buffer, "" when there is none; the cursor is at an entry boundary however much was cut |
| Disk.FileIo.FileGetMalloc | src/disk.c:497-531 | the whole stored string, with its length |
| Disk.FileIo.FileGetNumber | src/disk.c:533-637 | the number whose digits are stored, 0 when there is none |
| Disk.FileIo.FileGetBitflag | src/disk.c:639-661 | true exactly if a 1 is stored under the path |
| DiskRuns.TagBytesInjective | src/disk.c:206-232 | two tag paths with the same bytes in front of anything are the same path and type |
| DiskRuns.DataBytesInjective | src/disk.c:741-750 | length, ':' and data can be told apart from what follows, whatever the data contains |
| DiskRuns.BytesInjective | src/disk.c:723-750 | two files with the same bytes hold the same entries: nothing is lost in writing |
| DiskRuns.UsedIncreasing | src/extern/extern-disk.h:53-56 | the discipline of the debugging macros inside each section makes the paths of a whole run strictly increasing, of gets as of puts |
| DiskRuns.GetOne | src/disk.c:468-661 | every kind of get gives what plain lookup finds: the text, cut or whole, the number, the flag, or the default |
| DiskRuns.Serve | src/disk.c:234-361 | every run of sections and gets of any kinds that keeps the discipline is answered like a map, whatever entries are extra or missing |
| Disk.EntryIsStored | src/disk.c:234-344 | each entry of a file can be asked for and is what lookup finds |
| DiskRuns.WriteAll | src/disk.c:723-863 | a program of sections and puts of texts, numbers and flags writes exactly the flattened tree, in order |
| DiskRuns.WriteThenServe | src/disk.c:234-344 | every tree written in order answers every run of gets in order like a map, from its bytes alone |
| DiskRuns.RoundTrip | src/disk.c:468-661 | a reading program that goes along with the writing one, get by put, gets every text, number and flag back, texts cut where its buffer is short |
| DiskRuns.ReadEach | src/disk.c:174-194 | reading every entry of a written tree passes the assertion on the length of names exactly if no name has 30 or more characters |
| DiskRuns.ShortProgram | src/disk.c:174-194 | a program that uses only short names writes such a tree |
| Records.BeyondIsAbsent | src/alias.c:536-563 | what comes after all entries is asked for safely and is not there |
| Records.NextName | src/alias.c:465-486 | the next numbered section has a legal name that is greater than the one before it |
| Records.SignedInjective | src/disk.c:779-849 | numbers with the same text are the same number, with signs |
| Records.WriteOpen | src/disk.c:752-762 | a new file starts with its version |
| Records.ReadOpen | src/disk.c:436-456 | opening such a file reads that version back |
| Records.GetNumber | src/disk.c:533-637 | a number that an entry of the file was written with is what the reader gets |
| Records.GetString | src/disk.c:468-495 | a string that fits the buffer comes back unchanged |
| AliasStore.SaveAlias | src/alias.c:588-622 | one alias becomes its command, type, comment, ten flags and text, in the order of their tags |
| AliasStore.SaveEach | src/alias.c:578-627 | walking the linked list writes one numbered section for each alias in list order and returns how many there are |
| AliasStore.SaveEachSub | src/alias.c:629-651 | the subscriptions are written in order, all but the last of a full array, and nothing stands where the reader will look for one more |
| AliasStore.AliasSave | src/alias.c:653-672 | header, aliases and subscriptions are appended to the file, with the count of the list in the header |
| AliasStore.LoadAlias | src/alias.c:481-533 | the section of an alias is read back into exactly that alias |
| AliasStore.LoadEach | src/alias.c:465-533 | inserting each loaded alias is never refused and rebuilds the table of the saved ones |
| AliasStore.LoadList | src/alias.c:458-534 | the loaded list is linked, sorted and equal to the saved one |
| AliasStore.LoadEachSub | src/alias.c:536-563 | reading stops at the first section without the flag, and gives exactly the saved names |
| AliasStore.AliasLoad | src/alias.c:565-576 | what was saved comes back wherever in the file it is: the limit, the list and the subscriptions |
| AliasStore.SaveAndLoad | src/alias.c:565-672 | saving then loading rebuilds the same list and limit for up to 9999 aliases; the subscriptions are the same exactly if there are fewer than the array has room for |
| AliasStore.LastIsLost | src/alias.c:629-651 | of sixteen subscriptions, saved and loaded, fifteen come back |
| NetStore.SaveNet | src/auth_player.c:192-215 | one network becomes its answer, four octets and mask |
| NetStore.SaveEach | src/auth_player.c:184-222 | only permanent networks are written, numbered as they come |
| NetStore.LoadNet | src/auth_player.c:622-659 | a network section is read back into the same answer, octets and mask |
| NetStore.LoadEach | src/auth_player.c:622-659 | adding each loaded network gives the list `AddedAll` of the saved ones |
| NetStore.SaveAndLoad | src/auth_player.c:142-222 | saving then loading leaves the answer for an address without temporary match unchanged exactly if the first and the last permanent entry of its longest mask answer alike |
| DraughtsBoard.SquareOfPosition | src/draughts.c:967-987 | each position is the number of one dark square, and the numbering finds it back |
| DraughtsBoard.PositionOfSquare | src/draughts.c:967-987 | a square has a number exactly if it is dark, and the number is on the board and names that square |
| DraughtsBoard.StepIsDiagonal | src/draughts.c:1682-1766 | a difference of 4 or 5 is exactly a diagonal step, over the whole padded board |
| DraughtsBoard.JumpIsStraight | src/draughts.c:1682-1766 | a difference of 8 or 10 is a straight jump exactly when the midpoint is not one of the holes 9, 18 and 27 |
| DraughtsBoard.PositionOfBit | src/draughts.c:990-1015 | positions and bits are in one-to-one correspondence |
| DraughtsBoard.TurnedBit | src/draughts.c:990-1015 | turning the board takes position p to 36-p and bit b to 31-b |
| DraughtsRules.HopKeepsValid | src/draughts.c:2096-2147 | after an accepted hop the sides are still apart and kings are still pieces of their side |
| DraughtsRules.HopCounts | src/draughts.c:2096-2147 | a hop keeps the number of the mover's pieces unless its start is empty, and takes exactly the piece jumped over |
| DraughtsRules.KingsStayKings | src/draughts.c:2096-2147 | a king that moves is a king where it lands, and the enemy's kings stay kings |
| DraughtsRules.RunKeepsSound | src/draughts.c:2485-2662 | the accounts between the boards in the local variables and the game hold over any run of the loop, commands that go on behind a commit included |
| DraughtsTheorems.CommandKeeps | src/draughts.c:2485-2662 | every command keeps the piece invariant; the turn passes exactly if it is carried out; the enemy loses exactly what was taken |
| DraughtsTheorems.MoverKeepsPiecesIff | src/draughts.c:2485-2662 | a command leaves the mover's piece count unchanged exactly if no hop behind the first that passes the guards of `make_final_state` passes them in turn; otherwise he has more |
| DraughtsTheorems.ExtraParameterMakesAPiece | src/draughts.c:2617-2662 | an input on which a parameter behind a crowning makes a second piece |
| DraughtsTheorems.FinalBehindIff | src/draughts.c:2617-2662 | the guards along the loop say exactly when `make_final_state` is called twice |
| DraughtsTheorems.EndsWithCommitOnce | src/draughts.c:2485-2662 | a command whose first final hop is its last parameter makes no second one final |
| DraughtsTheorems.HarmlessKeepsPieces | src/draughts.c:2617-2662 | so does every command of at most four targets of which none but the last lies on the crowning row |
| DraughtsKings.CommandMoves | src/draughts.c:2096-2176 | the mover's side after a whole command: the piece comes to rest on a square of its own, a king if it was one or is crowned there; all other pieces and kings are still where they were; if no second hop is made final that is all; without a final hop nothing has changed |
| DraughtsKings.CommandKeepsEnemy | src/draughts.c:2096-2176 | over a whole command the enemy's kings are exactly those of before that were not taken |
| DraughtsKings.TrackKeeps | src/draughts.c:2401-2690 | a piece followed over a command keeps its colour unless it is taken, and a king its crown |
| DraughtsKings.KingsForever | src/draughts.c:2401-2690 | over every sequence of commands, however typed, no king reverts to a man |
| DraughtsTheorems.GameKeeps | src/draughts.c:2401-2690 | along every sequence of commands the piece invariant holds and the turn alternates with the commands carried out |
| DraughtsTheorems.PiecesConserved | src/draughts.c:2401-2690 | over every game the pieces left and the pieces taken add up to those at first exactly if no command makes a second hop final, and to more otherwise |
| DraughtsTheorems.StartIsValid | src/draughts.c:1284-1295 | the start position has twelve pieces a side, on the board and apart |
| DraughtsTheorems.GamesFromTheStart | src/draughts.c:1284-1295 | from the start on the invariant holds, and pieces left and taken are twenty-four exactly in such games |
| DraughtsTheorems.Chain | src/draughts.c:2611-2662 | a capture can always be carried through: at most four jumps that end in a crowning, the fourth hop or where nothing more can be taken |
| DraughtsTheorems.TrappedIff | src/draughts.c:1796-1905 | a player is reported trapped exactly when no command of his, however long, is carried out |
| DraughtsCapture.AcceptsIff | src/draughts.c:2529-2608 | the tests of a round let through exactly the open captures, and a step only as the first hop and only while nothing can be taken: with any piece, or behind a capture from where the step leads |
| DraughtsCapture.LegalCommand | src/draughts.c:2485-2662 | a command changes the game exactly if its squares are a move by the rules: a step while nothing can be taken or a capture, then captures only, and no stop where the piece can take one more; with no second final hop the mover's moves grow by the hops made and the enemy loses exactly the pieces in the middle of the jumps |
| DraughtsCapture.ForcedCapture | src/draughts.c:2595-2608 | while anything can be taken, a command that does not begin with a jump changes nothing |
| DraughtsCapture.OpenStep | src/draughts.c:2569-2662 | while nothing can be taken, every open step goes through |
| DraughtsCapture.StepBehindCapture | src/draughts.c:2576-2594 | behind a capture, a step is refused if something can be taken from where it leads, and otherwise made |
| DraughtsCapture.CrownsAtTheEnd | src/draughts.c:2096-2147 | a piece is crowned exactly on the row where every direction ahead leads off the board |
| DraughtsSymmetry.TurnedRules | src/draughts.c:1796-2074 | forced capture and being trapped commute with turning the board and swapping the colours |
| DraughtsSymmetry.TurnedHop | src/draughts.c:2096-2147 | so does the new state after a hop |
| DraughtsSymmetry.TurnedRun | src/draughts.c:2485-2662 | so does every run of the move loop |
| DraughtsSymmetry.TurnedPlay | src/draughts.c:2401-2690 | so does every command |
| DraughtsGame.SquareNamed | src/draughts.c:2078-2094 | a parameter names a square only if that square is on the board |
| DraughtsGame.NameSquare | src/draughts.c:2078-2094 | the square that a parameter names; the assertion fails exactly for the empty one |
| DraughtsGame.NamesNameAll | src/draughts.c:2078-2094 | every sequence of squares can be typed, and what is typed names that sequence |
| DraughtsGame.TrappedMeansNoCommand | src/draughts.c:1796-1905 | trapped exactly when no text the player could type as a move is carried out |
| DraughtsGame.CommandIsLegal | src/draughts.c:2401-2690 | a text changes the game exactly if it names a piece of the mover and squares that are a move by the rules |
| DraughtsGame.ForcedCaptureTyped | src/draughts.c:2595-2608 | while anything can be taken, a text that does not begin with a jump changes nothing |
| DraughtsGame.VerdictTells | src/draughts.c:2664-2690 | after a move with nothing typed behind it, the game is reported to go on exactly if the other player can type a move, and without pieces exactly if he has none |
| DraughtsGame.PieceAtPosition | src/draughts.c:1769-1785 | whether a piece stands on a position, and its bit; the assertion fails exactly on the holes |
| DraughtsGame.ValidDistances | src/draughts.c:1682-1766 | the branches accept exactly steps and jumps in a direction the piece may take, and give the midpoint of a jump; the assertion fails exactly for a hop to the square of departure |
| DraughtsGame.JumpFrom | src/draughts.c:1927-1936 | the capture test as `can_i_take_from` has it, destination first |
| DraughtsGame.JumpAnywhere | src/draughts.c:2009-2020 | the capture test as `can_i_take` has it |
| DraughtsGame.JumpLeft | src/draughts.c:1857-1865 | the capture test as `trapped_pieces` has it; the three agree in every direction |
| DraughtsGame.CanITakeFrom | src/draughts.c:1909-1978 | on bitboards: a capture from this square exists, in one of the directions the piece may take |
| DraughtsGame.CanITake | src/draughts.c:1980-2074 | the loops over the board find a capture exactly if some own piece has one |
| DraughtsGame.TrappedPieces | src/draughts.c:1796-1905 | the loops over the board answer yes exactly if no piece of the player to move has a step or a capture |
| DraughtsGame.SetupNewState | src/draughts.c:2096-2147 | on bitboards: the moved, taken and crowned squares of the hop, on all four boards at once |
| DraughtsRules.FailsIsNotAccepted | src/draughts.c:1689-1774 | no hop that makes an assertion fail is accepted |
| DraughtsGame.FirstMovesFail | src/draughts.c:1769-1785 | inputs of the first move, for black and for white, that jump over a hole and make the assertion fail |
| DraughtsGame.ComingBackFails | src/draughts.c:1682-1691 | an input that names the square of departure behind a crowning and makes the assertion fail |
| DraughtsGame.EmptyParameterFails | src/draughts.c:2078-2080 | an empty parameter in front, or behind the square of a piece, makes the assertion fail in every game |
| DraughtsGame.SafeCommand | src/draughts.c:2401-2690 | no assertion fails on a command of at most five parameters, none empty, no two neighbours a jump over a hole, and none but the last on the crowning row |
| DraughtsGame.HopAllowed | src/draughts.c:2492-2608 | the tests of one round accept exactly the hops of the rules, and an assertion fails exactly if the target is free and is the square of departure, or is reached by a jump over a hole |
| DraughtsGame.Draughts.constructor | src/draughts.c:1284-1295 | the two loops set the squares of the start position |
| DraughtsGame.Draughts.MakeFinalState | src/draughts.c:2151-2176 | the local boards become the game's, the hops are counted and the turn passes |
| DraughtsGame.Draughts.Round | src/draughts.c:2485-2662 | one round of the loop, in place, is one step of the reference run |
| DraughtsGame.Draughts.Rounds | src/draughts.c:2485-2662 | the loop over all parameters, in place, is the reference run, with the exact outcome of its assertions |
| DraughtsGame.Draughts.UserMove | src/draughts.c:2401-2690 | the whole command leaves the game in the state of the reference run, and reports by its outcome, or that an assertion failed in one of its rounds; the game changes exactly if what is typed is a move by the rules, forced captures included |
| Getopt.PartIsPermutation | src/fix.c:579-648 | options with their arguments and the others together are the arguments, none lost or made up |
| Getopt.PartKeepsOrder | src/fix.c:579-648 | options with their arguments, and the others, are complementary parts of the arguments, each in its original order |
| Getopt.OthersHoldNoOption | src/fix.c:595-606 | without a "--" nothing that is an option is among the others |
| Getopt.FindLong | src/fix.c:680-703 | the one-pass search gives an exact match if there is one, otherwise the only abbreviation, otherwise says ambiguous |
| Getopt.MyIndex | src/fix.c:364-376 | the first place of a character, found by the loop |
| Getopt.SwapBlocks | src/fix.c:412-447 | the inner loops swap two blocks in place and touch nothing else |
| Getopt.ExchangeRound | src/fix.c:410-448 | one round leaves a smaller exchange with the same result |
| Getopt.ExchangeBlocks | src/fix.c:398-453 | the whole loop exchanges the two neighbouring blocks in place, each in its order |
| Getopt.RotatedParts | src/fix.c:448-453 | where both blocks are after the exchange, with nothing else moved |
| Getopt.Scanner.constructor | src/fix.c:457-506 | scanning starts at the first argument with nothing skipped |
| Getopt.Scanner.Exchange | src/fix.c:398-453 | the exchange and the new bounds of what was skipped |
| Getopt.Scanner.NextElement | src/fix.c:564-655 | after -1 the arguments are partitioned for good; otherwise the next element is an option and the partition so far holds |
| Getopt.Scanner.Consume | src/fix.c:657-994 | decoding one option keeps the partition and appends its value and argument to what was returned |
| Getopt.Scanner.Getopt | src/fix.c:509-994 | one call keeps the invariant of the whole scan |
| Getopt.Scanner.Run | src/fix.c:509-994 | over a whole run until -1: the vector is the program name, all options and their arguments in order, then all others in order; `optind` is between them; the values are those of the reference walk |
| GetoptForms.OneKind | src/fix.c:946-992 | each character is unknown, a flag, or takes an argument that is required or optional, and only one of these |
| GetoptForms.MatchMeans | src/fix.c:680-703 | a text means the first long option of exactly that name, or else the only one whose name begins with it; it is ambiguous or unknown exactly otherwise |
| GetoptForms.LetterRead | src/fix.c:803-825 | a flag is returned as itself without an argument, an unknown letter as '?', and decoding goes on behind it |
| GetoptForms.AttachedRead | src/fix.c:949-968 | a letter that takes an argument gets all of the element behind it |
| GetoptForms.BehindRead | src/fix.c:969-990 | with nothing behind it, a letter that requires an argument gets the next element, whatever it looks like; if there is none, ':' or '?' is returned as the option string begins |
| GetoptForms.OmittedRead | src/fix.c:949-960 | an optional argument is never taken from the next element |
| GetoptForms.LongAlone | src/fix.c:717-771 | a long option without '=' returns its value, or 0 if it sets a variable, and the next element as its argument exactly if it requires one |
| GetoptForms.LongWithArgument | src/fix.c:722-750 | with '=' it returns all that is behind it as the argument, or '?' if it takes none |
| GetoptForms.LongMistaken | src/fix.c:705-797 | a text that means several long options, or none and no letter either, is '?' |
| GetoptForms.FormRead | src/fix.c:509-994 | whatever is behind it, an option written in any of these ways returns what it means and goes in front of the other arguments |
| GetoptForms.LineRead | src/fix.c:509-994 | so for every line of options and other arguments |
| GetoptForms.EndRead | src/fix.c:586-618 | behind a line there may be nothing, "--" and any arguments at all, or an option without its argument |
| GetoptForms.LineCovers | src/fix.c:509-994 | with two dashes for every long option, every argument vector is one of these lines |
| GetoptForms.ReadLine | src/cmd_line.c:48-49 | the loop of the server over such a line: the values and arguments returned are exactly those meant, in order, and the vector holds the options and then the others |
| GetParameter.Stages | src/get_parameter.c:50-108 | parsing up to m and then up to n gives what parsing up to n at once gives |
| GetParameter.ManyStages | src/get_parameter.c:50-108 | the same for any non-decreasing sequence of limits |
| GetParameter.LayoutShift | src/get_parameter.c:110-134 | parameters shifted away stay in front in the buffer, the others follow them |
| GetParameter.FitsAt | src/get_parameter.c:50-108 | each parameter's pointer and length select that word of the buffer, with a NUL behind it |
| GetParameter.FitsDrop | src/get_parameter.c:110-134 | after a shift the slots still point to the words that are left |
| GetParameter.ParameterHolder.constructor | src/get_parameter.c:23-48 | nothing parsed, all of the buffer free |
| GetParameter.ParameterHolder.Append | src/get_parameter.c:50-108 | bytes are copied inside the buffer, behind those before |
| GetParameter.ParameterHolder.CopyWord | src/get_parameter.c:70-95 | the loop over quoted and plain pieces copies exactly the reference word and stops where it does |
| GetParameter.ParameterHolder.Parse | src/get_parameter.c:50-108 | the words, the text left and the room left are those of the reference parser, and the buffer holds the words NUL-terminated one behind the other |
| GetParameter.ParameterHolder.Shift | src/get_parameter.c:110-134 | exactly the first k parameters are dropped and the rest keep their texts |
| GetParameter.ParameterHolder.Text | src/extern/extern-get_parameter.h:4-5 | the k-th parameter reads as the k-th word |
| ParameterText.PlainWord | src/get_parameter.c:70-95 | a word without spaces and quotes is that word |
| ParameterText.WordOfParts | src/get_parameter.c:70-95 | bare and quoted parts side by side, the last one perhaps in a quote that is never closed, are one word of what they contain, and the line goes on behind it |
| ParameterText.WordTooLong | src/get_parameter.c:70-95 | of a word that does not fit, the buffer takes as many characters as it can beside a NUL |
| ParameterText.LineParsed | src/get_parameter.c:50-108 | a line of words with spaces between them is parsed into exactly those words, up to the number asked for, and what is left begins with the next one |
| ParameterText.LineSplit | src/get_parameter.c:50-108 | every text is such a line |
| AliasExpand.WordOfQuoted | src/get_parameter.c:70-95 | a quoted word is parsed back into that word, whatever spaces and quotes it holds |
| AliasExpand.ParseEmitted | src/alias.c:1016-1087 | text emitted for any words is parsed back into the non-empty ones |
| AliasExpand.QuotingRoundTrip | src/alias.c:1016-1087 | the parameters from an index on, emitted and parsed, are exactly the non-empty parameters from that index on |
| AliasExpand.QuotingFromZero | src/alias.c:997-1018 | with the start index 0 and 32-bit pointers the loop writes one parameter more, from the slot in front of the array whose length field is the number of parameters: the round trip is right exactly without parameters |
| AliasExpand.InputNode.AddEscaped | src/alias.c:1042-1076 | one character is appended, a double quote as five, or there is no room and nothing is appended |
| AliasExpand.InputNode.AddParameter | src/alias.c:1023-1086 | one parameter is appended quoted, or the buffer is as it was before |
| AliasExpand.InputNode.AddParameters | src/alias.c:1016-1087 | the loop appends the emitted text of the parameters from the start on, as far as there is room |
| AliasList.AscendingInsert | src/alias.c:194-236 | inserting between a smaller and a greater command keeps the list strictly sorted |
| AliasList.TableInsert | src/alias.c:194-236 | inserting adds exactly that command to the table |
| AliasList.TableRemove | src/alias.c:297-313 | removing takes exactly that command out of the table |
| AliasList.OneListATable | src/alias.c:194-313 | a strictly sorted list is determined by its table |
| AliasList.AliasList.Find | src/alias.c:286-295 | the scan that stops early finds a command exactly if the list has it |
| AliasList.AliasList.Insert | src/alias.c:194-236 | refused exactly if the command is there, and then nothing changes; otherwise linked both ways in its place |
| AliasList.AliasList.NewInsert | src/alias.c:238-284 | a new node is made, and inserted exactly if the command is new |
| AliasList.AliasList.Remove | src/alias.c:297-313 | the node with the command is unlinked and returned; the table loses exactly that command |
| AliasList.AliasList.AddAlias | src/alias.c:1850-1897 | adds one alias with the text given exactly if the limit, the name and the list allow it |
| AliasList.Added | src/alias.c:238-284 | an alias is added exactly if there is room and its name is new, shorter than 32, without a space and without a leading backslash; it holds the text given, or its first 511 characters, and no comment, type or flag; all others stay |
| AliasList.Copied | src/alias.c:1967-2034 | a copy holds the text and the flags of its source, with nothing public or prived, and the flag of the leading space as the source is public; all others stay |
| AliasList.Renamed | src/alias.c:2081-2116 | a renamed alias is the same under its new name, and every other one stays |
| AliasList.Deleted | src/alias.c:2037-2060 | a deleted alias is gone and every other one stays; one with a leading backslash does not go |
| AliasList.AliasList.CopyAlias | src/alias.c:1958-2035 | copies one alias with its flags, or nothing |
| AliasList.AliasList.DeleteAlias | src/alias.c:2037-2059 | deletes exactly that alias |
| AliasList.AliasList.RenameAlias | src/alias.c:2081-2117 | removes, renames and inserts; refused exactly if the old name is not there or the new one is another alias; then the node goes back under its old name, which never fails |
| AliasList.AliasList.PerformAll | src/alias.c:1850-2117 | any sequence of add, copy, delete and rename keeps the list strictly sorted, linked both ways and as long as its count, with the table of the reference |
| AliasList.LimitKept | src/alias.c:1863-1875 | no sequence of requests under a limit brings the table above it |
| AliasList.TableSize | src/alias.c:1863-1875 | the count of the list is the number of its commands |
| AliasList.RenameBack | src/alias.c:2081-2117 | renaming and renaming back restores the table |
| AliasList.DeleteAdded | src/alias.c:2037-2059 | deleting what was just added restores the table |
| AliasList.EscapedStays | src/alias.c:2037-2059 | no run of commands that does not rename it removes an alias whose name starts with a backslash |
| AliasList.RemovableIff | src/alias.c:2037-2059 | an alias can be removed under its name, by some run of commands, exactly if the name does not start with a backslash |
| AliasList.RemovedAsAnother | src/alias.c:2081-2117 | but every alias can be renamed to a free name and removed under that |
| AliasMerge.AliasSearch.FirstHead | src/alias.c:1301-1322 | libraries that have run out are skipped; disabled aliases are passed |
| AliasMerge.AliasSearch.LeastHead | src/alias.c:1325-1346 | the head chosen is the least, and of equal ones that of the lowest-numbered library |
| AliasMerge.AliasSearch.SkipSame | src/alias.c:1356-1366 | the loop looks only at every second library, and moves those past the name |
| AliasMerge.AliasSearch.Next | src/alias.c:1291-1369 | the least enabled name left, from the player if he has it, otherwise from the lowest-numbered library with it; none only if nothing is left |
| AliasMerge.AliasSearch.SearchAll | src/alias.c:1291-1369 | repeated calls end; names never decrease; each name's first alias is the best one; every enabled name comes; no name comes twice exactly if none is held by a library that the loop passes over and by one before it |
| AliasMerge.BestMeans | src/alias.c:1291-1369 | a name stands for the player's own alias if he has one that is not disabled, and otherwise for that of the first library that has one |
| AliasMerge.FoundTwice | src/alias.c:1356-1366 | two libraries that hold the same name: a walk gives it twice |
| AliasMerge.StepLookup | src/alias.c:1291-1369 | a call changes nothing for names above the one returned, and nothing is left below it |
| Colour.WordInjective | src/colourise.c:23-60 | the packed word of attributes says all of them, so comparing words is comparing attributes |
| Colour.WandInWord | src/include/colourise.h:101-111 | each wand is one bit of the word, 8 to 12 |
| Colour.ColoursInWord | src/include/colourise.h:74-99 | each colour is four bits of the word |
| Colour.ChangedWord | src/colourise.c:64-168 | a foreground replaces the lowest four bits, a background the next four, a wand sets or clears its own bit, and all other bits stay; everything off is 0 |
| Colour.AfterShows | src/colourise.c:23-168 | the same for the level on top of the stack; a saved or cleared level starts with nothing, and a restore shows the level below |
| Colour.Player.MovePointer | src/colourise.c:36-88 | save, restore and clear move the stack pointer within its bounds and switch the terminal off |
| Colour.Player.ColourWrite | src/colourise.c:23-183 | whatever was on before, the terminal afterwards shows the output type on top of the stack, whose word has exactly the bits of the change changed |
| Colour.Player.ColourLoad | src/colourise.c:185-225 | the same for one of the player's own colours; the terminal shows that colour |
| Colour.Player.WriteOut | src/colourise.c:23-225 | after every operation of any output the terminal shows the output type; if the nesting fits, its word is what the changes and colours outside saved parts make of it, bit by bit |
| Colour.RunKeeps | src/colourise.c:36-88 | well-nested output within the capacity keeps the level and all below it |
| Colour.RunWord | src/colourise.c:23-225 | well-nested output within the capacity leaves the word that its own changes and colours make, one after the other, whatever is in the saved parts |
| Colour.RunPointer | src/colourise.c:36-88 | where the pointer ends for any nesting depth, overflow included |
| Colour.SaveRestores | src/colourise.c:36-88 | a save and its restore bring level and attributes back exactly if there is room for what is between, or there was nothing to bring back |
| Colour.SaveAtTheTop | src/colourise.c:36-52 | a save on the last level, with attributes on, and its restore do not bring them back |
| NetList.LowNested | src/auth_player.c:32-37 | a shorter octet mask looks at no bit that a longer one does not |
| NetList.MaskedNested | src/extern/extern-auth_player.h:4-16 | masking by the longer and then by the shorter mask is masking by the shorter |
| NetList.Nested | src/extern/extern-auth_player.h:12-16 | networks are nested or disjoint |
| NetList.AgreesWithPrefix | src/auth_player.c:32-37 | the masks agree with the prefixes of section 3.1 of RFC 4632 for all addresses exactly if the mask ends with an octet |
| NetList.InsertedDescending | src/auth_player.c:422-496 | adding keeps the list sorted by descending mask |
| NetList.InsertedMatch | src/auth_player.c:422-496 | a new entry answers exactly what it matches and no longer mask does |
| NetList.WithoutMatch | src/auth_player.c:498-508 | deleting an entry that does not match, or has one that matches in front, changes no answer |
| NetList.LongestMatch | src/auth_player.c:567-580 | the first match has the longest mask of all that match |
| NetList.AddedAllAnswer | src/auth_player.c:622-659 | adding saved entries one by one turns equal masks round: the last of them answers |
| NetList.FirstAndLast | src/auth_player.c:567-580 | the first and the last entry of the longest mask that match have the same mask |
| NetList.Reloaded | src/auth_player.c:184-222 | after saving and loading, an address that no temporary entry matches gets the same answer exactly if both ends of its longest network agree |
| NetList.AnswerChanges | src/auth_player.c:622-659 | two permanent entries of one network that answer differently: saving and loading changes the answer |
| NetList.ReloadedSame | src/auth_player.c:622-659 | with one permanent entry a network it always does |
| NetList.Nets.Link | src/auth_player.c:446-484 | the new node is linked both ways in front of the first entry with the same or a shorter mask, or behind the last |
| NetList.Nets.Add | src/auth_player.c:422-496 | a masked entry is put in front of those with the same or a shorter mask, with all links of the list kept |
| NetList.Nets.AddTemporary | src/auth_player.c:721-752 | the same, and marked as temporary |
| NetList.Nets.DeleteAt | src/auth_player.c:498-508 | the node is unlinked, and nothing else changes |
| NetList.Nets.Delete | src/auth_player.c:511-535 | exactly the entry of that number goes, or nothing |
| NetList.Nets.Number | src/auth_player.c:127-140 | the number of permanent entries |
| NetList.Nets.Do | src/auth_player.c:567-580 | open if nothing matches, otherwise the type of a matching entry with the longest mask |
| Editor.CountWords | src/editor.c:75-92 | the words counted are the characters at which a word starts |
| Editor.WordsOfLine | src/editor.c:75-92 | a line written of n words, with spaces and tabs between and around them, has n words |
| Editor.TotalsWith | src/editor.c:132-188 | a line more adds its own words and characters to the sums |
| Editor.TotalsWithout | src/editor.c:221-248 | a line less takes its own away |
| Editor.EditBase.FindLine | src/editor.c:94-121 | from either end, the node that plain counting gives |
| Editor.EditBase.FindPoint | src/editor.c:123-130 | the node of the current line, cached from now on |
| Editor.EditBase.NewLineNode | src/editor.c:132-188 | the line goes behind the current one, with links, counts and cache kept |
| Editor.EditBase.DeleteLineNode | src/editor.c:221-248 | exactly that line goes, with links and counts kept |
| Editor.EditBase.InsertLine | src/editor.c:250-283 | refused exactly at the limits |
| Editor.EditBase.LimitLines | src/editor.c:403-420 | the first lines stay, as many as the limit allows |
| Editor.EditBase.LimitCharacters | src/editor.c:422-439 | the longest run of first lines within the limit stays |
| Editor.EditBase.Wipe | src/editor.c:345-352 | nothing is left, and all counts are zero |
| Editor.EditBase.Backward | src/editor.c:745-788 | so many lines back, at most to 0, and the cache is right |
| Editor.EditBase.Forward | src/editor.c:803-847 | so many lines on, at most to the last, and the cache is right |
| Editor.EditBase.GotoTop | src/editor.c:905-913 | line 0, with the cache right |
| Editor.EditBase.GotoBottom | src/editor.c:923-931 | the last line, with the cache right |
| Editor.EditBase.GotoLine | src/editor.c:995-1012 | to that line, at most to the last |
| Editor.EditBase.DeleteLine | src/editor.c:945-993 | exactly those lines go, or none if the text is no number; the cached line is the current one exactly if the current line was not 0 or nothing is left |
| Editor.WrongLineCached | src/editor.c:945-993 | two lines and the cursor at 0: deleting one leaves the wrong line cached |
| Editor.EditBase.EnterText | src/editor.c:625-666 | the splitting loop enters the lines of the text, in order |
| Editor.EditBase.Dump | src/editor.c:25-53 | the beginning of the text as far as the buffer goes, but for at most one byte, and all of it if there is room |
| Editor.EditBase.MallocDump | src/editor.c:55-73 | all of the text, with the length that `EDIT_SIZE` promises |
| Editor.DumpedSize | src/extern/extern-editor.h:4 | the text dumped is as long as characters and, unless raw, lines |
| Editor.EnterAndDump | src/editor.c:55-73 | starting the editor on any text and dumping gives that text and one newline, with its length |
| Editor.EnterDump | src/editor.c:625-666 | every text entered and dumped comes out with one newline more |
| Editor.Indented | src/editor.c:190-218 | a reply is entered as the same lines, each with "> " in front |
| Editor.PutInAndRemoved | src/editor.c:221-248 | deleting a line where one was put in gives back the lines of before |
| ChildCom.MessagesCover | src/child_com.c:269-292 | the messages of a stream and what follows them are the stream |
| ChildCom.MessagesStep | src/child_com.c:269-326 | taking the first message leaves exactly the others |
| ChildCom.ChildCom.Read | src/child_com.c:226-267 | a read moves bytes from the pipe to the end of the buffer, losing and reordering none |
| ChildCom.ChildCom.Gather | src/child_com.c:269-292 | the length of the first message, terminator included; 0 only if the buffer has none or the child is gone; a cached terminator is the first of its character |
| ChildCom.ChildCom.Recv | src/child_com.c:294-326 | exactly so many bytes from the front, or none |
| ChildCom.FittingAllIff | src/child_com.c:226-326 | nothing stops in front of a message too long for the buffer exactly if there is none |
| ChildCom.ChildCom.Turn | src/child_com.c:269-326 | a gather and its recv take the first message; if there is none, a read that can get bytes has brought some, unless no further message fits the buffer |
| ChildCom.ChildCom.ReceiveAll | src/child_com.c:226-326 | however the bytes come in, what is received are the first messages of the stream, none of them behind one that is longer than the buffer, and received and remaining bytes are the stream; as long as nothing goes wrong, as many reads as there are messages and bytes in the pipe deliver every message in front of the first that is too long; once the pipe is hung up or has gone bad, exactly a message whose terminator is cached is still received |
| LastLogon.LastUsesAre | src/last_logon.c:42-74 | the reference list holds each name that was used once, by last use |
| LastLogon.NewestTwice | src/last_logon.c:42-74 | forgetting old names before or after a use makes no difference |
| LastLogon.RingIsNewest | src/last_logon.c:42-74 | from an empty ring on, it holds the newest of the distinct names by last use |
| LastLogon.Ring.Find | src/last_logon.c:26-40 | the name is found exactly if it is one of the recent ones, at its place |
| LastLogon.Ring.Add | src/last_logon.c:42-74 | the name is removed, appended, and the newest that fit are kept, in place in the ring |
| LastLogon.Ring.AddEach | src/last_logon.c:42-74 | so for any run of logons |

## Left out

- Draughts offers, watchers, chat, statistics and drawing: messages around the rules.
- Draughts test positions (`user_draughts_test_setup`): they set the boards by hand and may break the piece invariant.
- DraughtsGame.SquareNamed: the columns are small letters, as the code has it where characters are ASCII.
- Compression, `mmap` and `popen` of the file store: one sequence of bytes with a cursor, in the manner of the stdio variant, stands for all of them.
- Doubles and times in files: their text comes from the C library.
- Disk.FileIo.FileGetString: for files that `file_write_open` and the `file_put_` functions wrote; what the reader does with a damaged file is an assertion in the code.
- Disk.FileIo.FilePutNumber: that the number is one of its type is the caller's business, as it is in the code.
- Disk.FileIo.FilePutString: tags without '.' and ':', and no name that is both an entry and a section, as the reader's comparison takes for granted.
- Disk.FileIo.FileGetNumber: the number is one that the caller's range holds, as the code asserts.
- `file_copy_io` and several objects in one file: not used by the clients modelled.
- AliasStore.SaveFile, AliasStore.LoadFile: a file that holds only this part; the whole of a player's file has many more sections of the same kind.
- AliasStore.LoadAlias: aliases whose texts fit their buffers, which is what the alias commands enter.
- Alias libraries' own files: the same lists under another header.
- NetList.Nets.AddTemporary: between adding the entry and setting its flag the code saves the list once, with the entry as a permanent one.
- NetStore.SaveAndLoad: the list of networks only; the names list is loaded in reverse order and is not part of this model.
- Getopt.Scanner.Run: the default ordering and option strings without `W;`; REQUIRE_ORDER and RETURN_IN_ORDER, `optopt`, the messages on stderr and the index of a long option are not modelled.
- Getopt.Scanner.Getopt: the end of the options is a result of its own, because an option may carry the value -1.
- AliasExpand.InputNode.AddParameters: start indices of at least 1; without `-n` the code starts at index 0, which lies in front of the array, so that what it reads there is not determined; with 64-bit pointers the index wraps to a slot far outside.
- The other substitutions of an alias (`%1`, `%*`, `%#`, `%$`, `%T`, `%{`) and the queue of input lines: no property beyond copying.
- AliasList.AliasList.NewInsert: the flags that its callers set on the new node afterwards are part of the insertion here.
- Alias listing, searching by type and flag commands: formatting over the same list.
- AliasMerge.AliasSearch.Next: pointers into lists are the lists from there on, so sharing is not modelled.
- Colour: the escape sequences of terminals; `terminal_` functions have an ideal meaning. Colours 8, 5 and 6, which the code treats as nothing, do nothing.
- The pager's movements in the editor: on an empty buffer its jump to the first line sets a line that is not there.
- ChildCom: starting the child, sending to it, and `poll` itself; what it reports is a parameter.
- Channels, intercom, logs, name server look-ups, passwords and privileges: not part of this model.
- Failing allocations, apart from plain early returns.
