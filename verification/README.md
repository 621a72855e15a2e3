# Verified models of the small programs and the IRC server

The repository holds a set of short exercise programs and two versions of an IRC
server. This project models the parts that compute something and proves what
they promise:

| files | what they model |
|---|---|
| `Squares`, `Bsq`, `BsqColumnFirst` | the two largest-free-square programs: table, running best, drawing |
| `SearchTree`, `TreeShape`, `TreeBag`, `DuplicateTreeBag`, `ArrayBag`, `Polyset` | the two heap search trees, the array bag and the set wrapper |
| `IrcState`, `IrcInvariants`, `IrcHistory`, `IrcConnections`, `IrcAuthority`, `IrcEffects`, `IrcReplies`, `IrcServer` | the merged IRC server: clients, registration, channels, replies, whole runs |
| `MergedParser`, `MergedAgreement`, `MergedServer`, `MergedReads` | its own line parser compared with the documented format, and the server from the received bytes of all its clients on |
| `Framing`, `IrcParser`, `MessageFormat` | taking CRLF lines off a stream, the line parser, its round trips |
| `Decimal`, `Bigint`, `PaddedAdder` | the decimal bigint classes |
| `LifeRule`, `Life` | the two Game of Life programs and their drawing pens |

`Common` holds an option type and two facts about sequences.

Programs that change things in place are methods over arrays and heap objects;
each is proved against a definition that does not mention the program (all free
squares, the contents of a tree, the k-th generation, the value of a digit
string), or against a step function whose properties over all runs are then
proved. A tree of linked nodes carries a ghost shape, a plain value that says
which nodes make it up; being linked as the shape says and having no node twice
is what makes the structure an unshared, acyclic tree.

The IRC state is a value (`IrcState.State`) with clients known by their file
descriptor, as the channels of the server know them. A run is any sequence of
accepted connections, disconnects and lines, the lines with any command word and
any parameters. `IrcServer` is the same server as heap objects changed by the
handlers, and every handler is proved to do to the objects what the step function
does to the value. What the step function does is told a second time in `IrcEffects`
and `IrcReplies`, from the parts of the state and from the numerics: exactly which line
of whom changes each part, and exactly when each reply is given. `MergedServer` puts the receive loop and the line parser in
front of it: whatever bytes arrive in whatever chunks, the server is in the state
of a run.

## Where the code differs from what it promises

- **Padded adder.** `addition` in `pracprac/practice05/level0/bigint/bigint.cpp`
  sets its carry when a column goes beyond nine and never clears it, so 15 + 27
  gives 142 (`PaddedAdder.WrongExample`). `PaddedAdder.AddedValue` gives the exact
  error for all operands. The sum is right exactly when every column above one
  that goes beyond nine adds up to at least nine (`PaddedAdder.RightIff`), and only
  then is the string that of the other bigint class (`PaddedAdder.SameStringIff`).
- **Column-first square search.** The subject asks for the topmost, then leftmost
  of the biggest squares. The program in
  `pracprac/drPractice/lvl_01/00_subject/bsq/bsq.c` scans column 0 first. It is
  right from side 2 on, and at side 1 unless a free cell lies above the first free
  cell of column 0 (`BsqColumnFirst.ColumnFirstIsTopmostIff`, example in
  `BsqColumnFirst.MisledExample`).
- **Framing of the merged server.** It appends each chunk as a C string. What it
  hands on is independent of how a stream is cut into chunks exactly when no byte
  other than NUL follows a NUL (`Framing.MergedFramingIgnoresCutsIff`). The mserver
  loop has no such condition.
- **Parser of the merged server.** It cuts a line at its first colon, wherever that
  is, and knows no tabs and no blanks in front. On every line it finds the message the
  documented format means exactly if the line starts with neither a blank nor a colon, no
  tab stands before its first colon, and that colon, if there is one, either starts a
  word and has something behind it, or ends the line inside a word behind a space
  (`MergedAgreement.MergedParserAgreesIff`). "JOIN #room a:b" loses its key
  (`MergedAgreement.CutKey`); tabs and leading blanks are in `MergedAgreement.TabBetween`
  and `MergedAgreement.SpaceInFront`. The mserver parser has no such condition
  (`MessageFormat.ParseUndoesPrint`).
- **Members that are gone.** `RemoveClient` does not tell the channels. Every member
  is a connected, registered client throughout a run exactly if only clients that
  have left every channel disconnect (`IrcInvariants.MembersAreRegisteredIff`, a run
  that breaks it in `IrcInvariants.DisconnectedMember`).
- **Descriptors handed out again.** For the same reason a new connection inherits the
  membership, the operator flag and the invites of one that is gone. The operators of a
  channel are the connections that earned it exactly if no descriptor of a listed operator
  is accepted again (`IrcConnections.OperatorsEarnedItIff`), and an invite is held for
  the connection that was invited exactly if its descriptor is not accepted again
  meanwhile (`IrcConnections.InviteIsClaimedIff`). Runs that break them are in
  `IrcConnections.ReusedDescriptor` and `IrcConnections.ReusedInvite`.
- **Spent invites.** A JOIN can be refused and still change something: exactly if the
  client is invited to the invite-only channel and lacks the key or finds no room. It
  has then lost its invite (`IrcHistory.RefusedJoinSpendsInviteIff`, a run in
  `IrcHistory.LostInvite`).
- **Commands before registration.** The command table ignores case, the gate in front
  of it knows words in all capitals or all small letters only. How a command is spelled
  makes no difference exactly for registered clients and for words the gate treats the
  same in capitals (`IrcState.SpellingIsIgnoredIff`, example in
  `IrcInvariants.MixedCaseIsRefused`).
- **Lines without a command.** The comment in `mserver/IrcParser.hpp` speaks of
  empty and blank lines; the parser also turns down a line that holds nothing but a
  prefix (`MessageFormat.RejectedIff`, example in `MessageFormat.PrefixAlone`).
- **Printing a tree bag** leaves out the item 0, so it shows the contents exactly if 0
  is not held (`TreeBag.Bag.Print`, example in `TreeBag.Bag.PrintsNothing`).
- **Live cells** are to be drawn as the letter `O`. The first Life program draws the
  digit `0`, the second one the letter, so their final boards look the same exactly if no
  cell is alive on them (`Life.ProgramsAgree`, example in `Life.ZeroForO`).

## Model

| member | source | states |
|---|---|---|
| Squares.EndSideIsLargest | pracprac/practice05/level1/BSQ/bsq.c:182-193 | the table recurrence is right: a square of side k ending at a cell is free exactly when k is at most the entry |
| Squares.ScanFindsBiggest | pracprac/practice05/level1/BSQ/bsq.c:195-200 | keeping the first largest entry, in either visiting order, ends on a free square with no larger free square anywhere |
| Squares.RowMajorScanFindsTopmost | pracprac/practice05/level1/BSQ/bsq.c:182-202 | the row-major order makes that square the topmost, then leftmost, one |
| Squares.TopmostBiggestIsUnique | pracprac/practice05/level1/BSQ/bsq.c:172-203 | the answer asked for is unique |
| Bsq.ElementControl | pracprac/practice05/level1/BSQ/bsq.c:71-86 | returns 0 exactly when the map holds only the two characters, -1 otherwise |
| Bsq.VisitCell | pracprac/practice05/level1/BSQ/bsq.c:184-201 | one cell: the entry is the largest free side ending there, and the running best stays the first largest one seen |
| Bsq.FindBigSquare | pracprac/practice05/level1/BSQ/bsq.c:172-203 | for every grid the square found is free, biggest, topmost, then leftmost; without a free cell it stays empty at the origin |
| Bsq.PrintFilledSquare | pracprac/practice05/level1/BSQ/bsq.c:205-215 | exactly the cells of the square that lie on the map become the full character |
| Bsq.ExecuteBsq | pracprac/practice05/level1/BSQ/bsq.c:224-241 | an invalid map is refused untouched; on a valid one the topmost, leftmost biggest square is drawn and nothing else changes |
| BsqColumnFirst.ScanFirstColumn | pracprac/drPractice/lvl_01/00_subject/bsq/bsq.c:117-124 | after column 0 the table and the running best are right for the cells visited |
| BsqColumnFirst.ScanFirstRow | pracprac/drPractice/lvl_01/00_subject/bsq/bsq.c:125-132 | the same after row 0, the corner being visited twice |
| BsqColumnFirst.ScanInterior | pracprac/drPractice/lvl_01/00_subject/bsq/bsq.c:133-144 | after the rest, the best is the first cell of the column-first order with the largest side |
| BsqColumnFirst.FindBiggestSquare | pracprac/drPractice/lvl_01/00_subject/bsq/bsq.c:108-153 | the first largest square of that order is drawn, and nothing else changes |
| BsqColumnFirst.FillSquare | pracprac/drPractice/lvl_01/00_subject/bsq/bsq.c:145-149 | the bottom-right corner and the side suffice to draw exactly the square |
| BsqColumnFirst.SameFreeCells | pracprac/drPractice/lvl_01/00_subject/bsq/bsq.c:76-81 | on a valid map testing for the empty character and testing for the obstacle see the same free cells |
| BsqColumnFirst.PickIsBiggest | pracprac/drPractice/lvl_01/00_subject/bsq/bsq.c:108-144 | the column-first scan always finds a square of the biggest side |
| BsqColumnFirst.SameSquareFromSideTwo | pracprac/drPractice/lvl_01/00_subject/bsq/bsq.c:108-144 | from side 2 on both programs find the same square |
| BsqColumnFirst.ColumnFirstIsTopmostIff | pracprac/drPractice/lvl_01/00_subject/bsq/bsq.c:117-144 | the column-first answer is the topmost, leftmost one exactly on maps that do not mislead it |
| BsqColumnFirst.PicturesAgreeIff | pracprac/drPractice/lvl_01/00_subject/bsq/bsq.c:145-149 | the two squares cover the same cells exactly on those maps |
| BsqColumnFirst.SameSide | pracprac/drPractice/lvl_01/00_subject/bsq/bsq.c:108-144 | at every size both programs find the same side |
| BsqColumnFirst.DrawBoth | pracprac/drPractice/lvl_01/00_subject/bsq/bsq.c:108-153 | both programs run on two copies of one valid map: the side is the same, and the pictures are the same exactly if the map does not mislead |
| BsqColumnFirst.MisledExample | pracprac/drPractice/lvl_01/00_subject/bsq/bsq.c:117-124 | a two-by-two map on which it answers wrongly |
| SearchTree.OrderedReadsSorted | pracprac/drPractice/lvl_00/00_subject/polyset/TreeBag.cpp:70-76 | a tree with smaller values left and the others right reads sorted |
| SearchTree.StrictReadsStrictlySorted | pracprac/practice05/level0/polyset/tree_bag.cpp:50-63 | a tree built with smaller items left and larger ones right reads strictly ascending, so no item occurs twice |
| SearchTree.InsertKeepsOrder | pracprac/drPractice/lvl_00/00_subject/polyset/TreeBag.cpp:33-39 | inserting with equal values to the right keeps the order |
| SearchTree.InsertAddsOne | pracprac/drPractice/lvl_00/00_subject/polyset/TreeBag.cpp:31-44 | the multiset of items grows by exactly the one inserted |
| SearchTree.InsertKeepsStrictOrder | pracprac/practice05/level0/polyset/tree_bag.cpp:49-63 | inserting a new item keeps the tree strictly ordered |
| TreeShape.HangInserts | pracprac/practice05/level0/polyset/tree_bag.cpp:50-63 | hanging a fresh node keeps the structure unshared, adds exactly that node, and does to the tree what insertion does |
| TreeShape.HangLinks | pracprac/practice05/level0/polyset/tree_bag.cpp:51-59 | the only link that has to change is one of the last node on the search path |
| TreeBag.Bag.Copy | pracprac/practice05/level0/polyset/tree_bag.cpp:8-10 | the copy has the same tree and only fresh nodes |
| TreeBag.Bag.CopyNode | pracprac/practice05/level0/polyset/tree_bag.cpp:108-118 | a linked, unshared tree of fresh nodes with the same shape and values |
| TreeBag.Bag.Assign | pracprac/practice05/level0/polyset/tree_bag.cpp:16-22 | same tree, fresh nodes; assigning a bag to itself keeps its nodes |
| TreeBag.Bag.ExtractTree | pracprac/practice05/level0/polyset/tree_bag.cpp:24-28 | the caller gets the whole tree and the bag is empty |
| TreeBag.Bag.SetTree | pracprac/practice05/level0/polyset/tree_bag.cpp:30-33 | the bag takes over whatever tree it is given, and is valid exactly if that is an unshared search tree |
| TreeBag.Bag.Insert | pracprac/practice05/level0/polyset/tree_bag.cpp:35-71 | order, links and unsharedness are kept, the contents become old contents plus the item, at most one fresh node is linked in, and nothing at all changes for an item already there |
| TreeBag.Bag.InsertArray | pracprac/practice05/level0/polyset/tree_bag.cpp:73-77 | the contents become old contents plus all items |
| TreeBag.Bag.Clear | pracprac/practice05/level0/polyset/tree_bag.cpp:84-87 | the bag is empty |
| TreeBag.Bag.PrintNode | pracprac/practice05/level0/polyset/tree_bag.cpp:99-106 | prints the items of the subtree from left to right, without the item 0 |
| TreeBag.Bag.Print | pracprac/practice05/level0/polyset/tree_bag.cpp:79-82 | what is printed is the whole reading of the tree exactly if 0 is not held |
| TreeBag.Bag.PrintsNothing | pracprac/practice05/level0/polyset/tree_bag.cpp:99-106 | a bag that holds 0 and prints nothing |
| TreeBag.Bag.Search | pracprac/practice05/level0/polyset/searchable_tree_bag.cpp:35-47 | recursive search answers membership in the subtree |
| TreeBag.Bag.Has | pracprac/practice05/level0/polyset/searchable_tree_bag.cpp:49-52 | answers membership in the bag |
| DuplicateTreeBag.Bag.Copy | pracprac/drPractice/lvl_00/00_subject/polyset/TreeBag.cpp:6-6 | same tree, only fresh nodes |
| DuplicateTreeBag.Bag.CopyNode | pracprac/drPractice/lvl_00/00_subject/polyset/TreeBag.cpp:78-85 | a linked, unshared tree of fresh nodes with the same shape and values |
| DuplicateTreeBag.Bag.Assign | pracprac/drPractice/lvl_00/00_subject/polyset/TreeBag.cpp:12-18 | same tree, fresh nodes; assigning a bag to itself keeps its nodes |
| DuplicateTreeBag.Bag.Insert | pracprac/drPractice/lvl_00/00_subject/polyset/TreeBag.cpp:31-44 | the walk of the link pointer ends where one fresh node belongs; the multiset grows by exactly the value and the tree stays ordered, linked and unshared |
| DuplicateTreeBag.Bag.Store | pracprac/drPractice/lvl_00/00_subject/polyset/TreeBag.cpp:40-43 | writing through the link pointer, be it the root or a link of a node, hangs the new node |
| DuplicateTreeBag.Bag.InsertArray | pracprac/drPractice/lvl_00/00_subject/polyset/TreeBag.cpp:46-50 | the multiset grows by the multiset of the array |
| DuplicateTreeBag.Bag.Clear | pracprac/drPractice/lvl_00/00_subject/polyset/TreeBag.cpp:57-60 | the bag is empty |
| DuplicateTreeBag.Bag.Has | pracprac/drPractice/lvl_00/00_subject/polyset/searchable_tree_bag.cpp:16-28 | the iterative search finds a value exactly when it occurs at least once |
| DuplicateTreeBag.Bag.ReadsSorted | pracprac/drPractice/lvl_00/00_subject/polyset/TreeBag.cpp:70-76 | every valid bag reads in ascending order |
| ArrayBag.Bag.Copy | pracprac/practice05/level0/polyset/array_bag.cpp:9-15 | same items in a fresh array |
| ArrayBag.Bag.Assign | pracprac/practice05/level0/polyset/array_bag.cpp:17-30 | same items, in a fresh array unless a bag is assigned to itself |
| ArrayBag.Bag.Insert | pracprac/practice05/level0/polyset/array_bag.cpp:39-50 | the item is appended, in a fresh array |
| ArrayBag.Bag.InsertArray | pracprac/practice05/level0/polyset/array_bag.cpp:52-65 | the items are appended in order |
| ArrayBag.Bag.Clear | pracprac/practice05/level0/polyset/array_bag.cpp:74-80 | no items and no array |
| ArrayBag.Bag.Has | pracprac/practice05/level0/polyset/searchable_array_bag.cpp:35-43 | the linear search answers membership |
| Polyset.Set.Has | pracprac/practice05/level0/polyset/set.cpp:21-24 | answers membership, whichever bag is wrapped |
| Polyset.Set.Insert | pracprac/practice05/level0/polyset/set.cpp:26-30 | adds exactly the value; a duplicate-free bag stays duplicate-free |
| Polyset.Set.InsertArray | pracprac/practice05/level0/polyset/set.cpp:32-38 | adds exactly the values of the array; no duplicates appear |
| Polyset.Set.Clear | pracprac/practice05/level0/polyset/set.cpp:45-48 | nothing is held any more |
| Polyset.Set.Run | pracprac/practice05/level0/polyset/set.cpp:26-48 | after any sequence of operations the set holds what the sequence says and is still free of duplicates |
| Polyset.HeldIffAddedSinceReset | pracprac/practice05/level0/polyset/set.cpp:26-48 | what the sequence says: an item is held exactly if it was added, or there from the start, with no clear since |
| Polyset.SetsAgree | pracprac/practice05/level0/polyset/set.cpp:16-48 | two sets over any two separate bags with the same items answer alike after any operations |
| Polyset.BagsAgree | pracprac/practice05/level0/polyset/main.cpp:16-29 | so do the bare bags, although only one keeps duplicates |
| Polyset.CopyIsIndependent | pracprac/practice05/level0/polyset/tree_bag.cpp:108-118 | after a copy, operations on both bags in any order leave in each what its own operations say |
| Framing.SplitIsFaithful | mserver/Server.cpp:84-90 | the lines with their terminators and the remainder are the stream, and none of them holds a CRLF |
| Framing.SplitUndoesTerminating | mserver/Server.cpp:84-90 | any CRLF-free lines and remainder come back from their terminated form |
| Framing.CutAnywhere | mserver/Server.cpp:82-90 | splitting a prefix first and going on with its remainder gives the same lines and remainder, wherever the cut is |
| Framing.Connection.TakeLines | mserver/Server.cpp:84-90 | the in-place loop hands on the lines of the buffer, in order, and leaves the remainder |
| Framing.Connection.ReceiveClientData | mserver/Server.cpp:82-90 | one read: the lines of the old remainder with the chunk behind it |
| Framing.Connection.ReceiveStream | mserver/Server.cpp:82-90 | however the stream is cut into chunks, the lines and the remainder are those of the whole stream |
| Framing.KeptUpToNul | merged_irc/srcs/Server.cpp:99-107 | when only NULs follow a NUL, exactly the bytes before the first NUL are kept |
| Framing.CStringByExample | merged_irc/srcs/Server.cpp:99-107 | a chunk counts up to its first NUL byte |
| Framing.ByteAfterNulIsAtRisk | merged_irc/srcs/Server.cpp:99-107 | a stream with a byte after a NUL can arrive in two ways that keep different numbers of bytes |
| Framing.MergedFramingIgnoresCutsIff | merged_irc/srcs/Server.cpp:97-125 | lines and remainder are independent of the cuts exactly when only NULs follow a NUL |
| IrcParser.SkipSpaces | mserver/IrcParser.cpp:3-6 | the index moves to the first character that is not blank |
| IrcParser.ReadToken | mserver/IrcParser.cpp:8-13 | the token is the text up to the next blank, and the index is behind it |
| IrcParser.ParseLine | mserver/IrcParser.cpp:15-50 | the index loop computes the parse defined on suffixes of the line, and what it leaves in the command object when it finds no command |
| IrcParser.ReadPrefix | mserver/IrcParser.cpp:23-30 | sets the prefix only behind a colon and stops at the command |
| IrcParser.ReadParams | mserver/IrcParser.cpp:38-48 | the parameters of the rest of the line are appended, the trailing one as it is |
| MessageFormat.ParseUndoesPrint | mserver/IrcParser.cpp:15-50 | printing any message of the format with any blanks between its parts and parsing it gives the same message |
| MessageFormat.ParsePrintedParams | mserver/IrcParser.cpp:38-48 | the parameters come back, the last one printed as middle or as trailing |
| MessageFormat.ParsedIsWellFormed | mserver/IrcParser.cpp:15-50 | whatever the line, an accepted one is a message of the format |
| MessageFormat.WellFormedIffParsed | mserver/IrcCommand.hpp:7-8 | the messages of the documented format are exactly those some line stands for |
| MessageFormat.CanonicalFormKeepsMeaning | mserver/IrcParser.cpp:15-50 | rewriting an accepted line in canonical form keeps what it parses to |
| MessageFormat.RejectedIff | mserver/IrcParser.hpp:9-11 | the lines without a command are the blank ones and those with a prefix alone |
| MessageFormat.StreamCarriesMessages | mserver/Server.cpp:84-97 | the lines of a stream of printed messages parse to those messages, in order, and a started line remains |
| MessageFormat.ProcessLines | mserver/Server.cpp:93-100 | of each line handed on, the message it stands for, lines without a command passed over |
| MessageFormat.ReceiveMessages | mserver/Server.cpp:82-100 | printed messages sent in any chunks come out of the receive loop and the parser unchanged and in order, and a started line stays in the buffer |
| MessageFormat.PrefixAlone | mserver/IrcParser.cpp:32-33 | any prefix alone is a line that is not blank and holds no command |
| IrcState.Lookup | merged_irc/srcs/server_commands.cpp:109-122 | finds nobody exactly when nobody has the nickname, else the holder with the lowest descriptor |
| IrcState.ChannelsNeedRegistration | merged_irc/srcs/helpers.cpp:100-112 | no command that touches a channel passes the gate without registration, in any spelling |
| IrcState.SpellingIsIgnoredIff | merged_irc/srcs/server_commands.cpp:178-194 | a command in any spelling does what it does in capitals exactly for registered clients and for words the gate treats the same in capitals |
| IrcInvariants.AdmitKeeps | merged_irc/cmds/JOIN.cpp:28-64 | a JOIN leaves an existing or new channel non-empty, with operators among the members |
| IrcInvariants.PartAndKickKeep | merged_irc/cmds/KICK.cpp:70-77 | leaving keeps the invariant because an emptied channel is dropped |
| IrcInvariants.NickKeeps | merged_irc/cmds/NICK.cpp:25-39 | a nickname change keeps nicknames unique and registration exact |
| IrcInvariants.StepKeeps | merged_irc/srcs/server_commands.cpp:174-204 | every accepted connection, disconnect and line keeps the invariant |
| IrcInvariants.ReachableStatesAreOk | merged_irc/cmds/JOIN.cpp:28-64 | in every reachable state: operators are members, no channel is empty, each is stored under its own valid name, nicknames are unique, and a client is registered exactly when authorized with nickname and user name |
| IrcInvariants.LookupFindsTheHolder | merged_irc/srcs/server_commands.cpp:109-122 | in every reachable state looking up a nickname finds a client exactly when it is its holder |
| IrcInvariants.NewMemberIsSender | merged_irc/cmds/JOIN.cpp:61-61 | the only way into a channel is one's own JOIN |
| IrcInvariants.MembersStayRegisteredIff | merged_irc/srcs/Server.cpp:48-57 | a step breaks "members are connected and registered" exactly when it disconnects a member |
| IrcInvariants.MembersAreRegistered | merged_irc/srcs/Server.cpp:48-57 | in every run in which only clients without a channel disconnect, all members are connected and registered |
| IrcInvariants.MembersAreRegisteredIff | merged_irc/srcs/Server.cpp:48-57 | throughout a run all members are connected and registered exactly if only clients without a channel disconnect |
| IrcInvariants.OpensRoomIsRun | merged_irc/cmds/JOIN.cpp:28-64 | connecting, PASS, NICK, USER and JOIN end in a registered client alone in its channel, as its operator |
| IrcInvariants.MixedCaseIsRefused | merged_irc/srcs/helpers.cpp:100-112 | right after connecting, "Nick" is refused and "NICK" is carried out |
| IrcInvariants.DisconnectedMember | merged_irc/srcs/Server.cpp:48-57 | a run of six events, from the connection to the disconnect, that leaves a member behind |
| IrcInvariants.GrowthRespectsLimit | merged_irc/cmds/JOIN.cpp:56-60 | any step that enlarges a limited channel leaves it within its limit |
| IrcHistory.OperatorsAreEntitled | merged_irc/cmds/MODE.cpp:56-79 | in every run the operators of a channel are exactly the descriptors that created it or were granted +o by a then-operator, not deprived since, and members ever since |
| IrcConnections.OperatorsEarnedItIff | merged_irc/srcs/Server.cpp:30-57 | throughout a run the operators are exactly the connections that earned it, if and only if no descriptor of a listed operator is accepted again |
| IrcConnections.EarnedOneMore | merged_irc/srcs/Server.cpp:30-46 | a single event breaks this exactly by accepting the descriptor of a listed operator |
| IrcConnections.ReusedDescriptor | merged_irc/srcs/Server.cpp:30-57 | a run after which a connection that is not even authorized is listed as member and operator |
| IrcConnections.InviteIsClaimedIff | merged_irc/srcs/Server.cpp:30-57 | throughout a run an invite is held exactly for a connection that was invited and has not used it, if and only if its descriptor is not accepted again while it is held |
| IrcConnections.InviteFollowsClaim | merged_irc/cmds/JOIN.cpp:37-60 | one event moves a held invite as the claim to it, but for a new connection |
| IrcConnections.ReusedInvite | merged_irc/srcs/Server.cpp:30-57 | a run after which a connection that is not even authorized holds an invite |
| IrcHistory.JoinKeepsOperators | merged_irc/cmds/JOIN.cpp:63-64 | the founder branch fires for a new channel only |
| IrcHistory.ModeMovesOperators | merged_irc/cmds/MODE.cpp:56-79 | only the two operator flags move operators, and only members |
| IrcHistory.LeavingKeepsOperators | merged_irc/cmds/PART.cpp:44-51 | whoever parts or is kicked loses the flag, nobody else does |
| IrcHistory.OnlyOperatorsInvite | merged_irc/cmds/INVITE.cpp:42-60 | a successful INVITE comes from a registered operator and names a client that is no member |
| IrcHistory.EnteringSpends | merged_irc/cmds/JOIN.cpp:36-61 | entering an invite-only channel takes one's own JOIN and a held invite, which is gone after it |
| IrcHistory.InvitesComeFromInvite | merged_irc/cmds/INVITE.cpp:60-60 | nothing but a successful INVITE makes the channel hold an invite for a descriptor |
| IrcHistory.InvitesGo | merged_irc/cmds/JOIN.cpp:37-60 | a held invite goes exactly by its holder's JOIN for the invite-only channel, let in or shut out, or by its PART; and coming in takes such a JOIN with key and room |
| IrcHistory.InvitesBalance | merged_irc/cmds/JOIN.cpp:36-61 | in every run, per channel incarnation and descriptor: invites issued = entries while invite-only + invite held + invites wasted |
| IrcHistory.RefusedJoinSpendsInviteIff | merged_irc/cmds/JOIN.cpp:36-60 | a refused JOIN of a non-member changes the state exactly if the client is invited to the invite-only channel and lacks the key or finds no room; then the invite is gone and nothing else |
| IrcHistory.LostInvite | merged_irc/cmds/JOIN.cpp:36-54 | after a run, an invited client forgets the key, is refused, and with the key is refused again |
| IrcAuthority.OthersActForThemselves | merged_irc/cmds/MODE.cpp:32-36 | whoever is no operator of a channel can only come, go, lose its own flag and use its own invite there; settings, other members, new operators and invites need an operator |
| IrcAuthority.SettingsChangeByOperators | merged_irc/cmds/MODE.cpp:32-98 | between two points of a run the key, limit and restrictions of a lasting channel differ only if a then-operator sent a MODE in between |
| IrcAuthority.OneChannelAtMost | merged_irc/srcs/server_commands.cpp:174-204 | no step changes two channels |
| IrcAuthority.JoinAdmitsIff | merged_irc/cmds/JOIN.cpp:33-61 | a JOIN adds the client, and nobody else, exactly when invite, key and limit allow it |
| IrcAuthority.PartUndoesJoin | merged_irc/cmds/PART.cpp:44-51 | PART after an admitted JOIN restores the state, apart from an invite; a channel made by the JOIN is gone |
| IrcAuthority.InviteLetsIn | merged_irc/cmds/INVITE.cpp:60-60 | an invite lets its holder in when key and limit allow, and is used up |
| IrcAuthority.RevokeUndoesGrant | merged_irc/cmds/MODE.cpp:75-78 | -o after +o restores the state |
| IrcAuthority.OffUndoesOn | merged_irc/cmds/MODE.cpp:38-98 | turning limit, key, topic or invite restriction on shows, unless the handler is given an empty key, and turning it off again restores the state |
| IrcEffects.WordsAreVerbs | merged_irc/srcs/server_commands.cpp:134-150 | the command table, word by word |
| IrcEffects.ConnectedAre | merged_irc/srcs/Server.cpp:30-57 | only connections and disconnects change who is connected |
| IrcEffects.AuthorizedIff | merged_irc/cmds/PASS.cpp:10-30 | a line authorizes a client exactly if it is its own PASS with the right password, before registration |
| IrcEffects.AuthorizedGavePassword | merged_irc/cmds/PASS.cpp:22-28 | in every run a connected client is authorized exactly if it sent the password since it connected |
| IrcEffects.PasswordInLine | merged_irc/cmds/PASS.cpp:10-30 | the two spellings of the word with which that can be done |
| IrcEffects.NewMembersGavePassword | merged_irc/cmds/JOIN.cpp:61-64 | in every run whoever comes into a channel, founders included, sent the password |
| IrcEffects.MembersGavePassword | merged_irc/cmds/JOIN.cpp:61-64 | while only clients without a channel disconnect, all members, so all operators, sent the password |
| IrcEffects.NicknameIs | merged_irc/cmds/NICK.cpp:13-31 | after any line a client has its old nickname, or the free valid one its own NICK asked for |
| IrcEffects.RenamedIff | merged_irc/cmds/NICK.cpp:19-31 | a client, registered or not, takes on another name exactly if it is valid and free; otherwise nothing changes |
| IrcEffects.UserNamesAre | merged_irc/cmds/USER.cpp:10-25 | only USER before registration sets the names, to the first and the fourth parameter |
| IrcEffects.RemovedIff | merged_irc/cmds/KICK.cpp:70-77 | a member is removed exactly by its own PART or by an operator's KICK that names it |
| IrcEffects.MembersLeaveByLine | merged_irc/cmds/KICK.cpp:35-71 | between two points of a run somebody stops being a member only by its own PART or the KICK of a then-operator that names it |
| IrcEffects.AddedIff | merged_irc/cmds/JOIN.cpp:20-61 | somebody becomes a member exactly by its own JOIN with a valid name, to a new channel or with invite, key and room |
| IrcEffects.ChannelsHaveMembers | merged_irc/cmds/PART.cpp:47-51 | a channel is there exactly as long as it has members |
| IrcEffects.InvitedIff | merged_irc/cmds/INVITE.cpp:26-60 | who is invited after a line: whom an operator's INVITE names, and who was and did not use it |
| IrcEffects.InviteOnlyIs | merged_irc/cmds/MODE.cpp:95-98 | only an operator's +i and -i change the restriction, each its way |
| IrcEffects.TopicRestrictedIs | merged_irc/cmds/MODE.cpp:91-94 | the same for +t and -t |
| IrcEffects.KeyIs | merged_irc/cmds/MODE.cpp:80-90 | only an operator's +k and -k change the key, to the third parameter or to none |
| IrcEffects.LimitIs | merged_irc/cmds/MODE.cpp:38-55 | only an operator's +l and -l change the limit, to the number given or to none |
| IrcEffects.AtoiReads | merged_irc/cmds/MODE.cpp:46-46 | blanks, a sign, digits and a rest are read as the number of the digits with that sign |
| IrcEffects.NegativeLimitWraps | merged_irc/cmds/MODE.cpp:40-52 | -n becomes two to the 64 less n |
| IrcEffects.LimitIsSet | merged_irc/cmds/MODE.cpp:46-52 | +l with the digits of a number in the int range sets that number as limit and nothing else |
| IrcEffects.LimitHolds | merged_irc/cmds/JOIN.cpp:56-61 | after it a JOIN is let in exactly while there are fewer members than that number |
| IrcEffects.KeyHolds | merged_irc/cmds/JOIN.cpp:47-61 | after +k a JOIN is let in exactly with the key that was given |
| IrcReplies.RegistrationReplies | merged_irc/cmds/PASS.cpp:10-28 | when PASS and USER answer 462, 461 and 464, and when they are carried out |
| IrcReplies.NickReplies | merged_irc/cmds/NICK.cpp:13-31 | when NICK answers 431, 432 and 433, and when it is carried out |
| IrcReplies.JoinReplies | merged_irc/cmds/JOIN.cpp:14-60 | when JOIN answers 461, 403, 473, 475 and 471, and when it is passed over in silence |
| IrcReplies.PartReplies | merged_irc/cmds/PART.cpp:13-33 | when PART answers 461, 403 and 442, and when it is carried out |
| IrcReplies.InviteReplies | merged_irc/cmds/INVITE.cpp:17-60 | when INVITE answers 461, 401, 403, 442, 482 and 443, and when it is carried out |
| IrcReplies.KickReplies | merged_irc/cmds/KICK.cpp:18-71 | when KICK answers 461, 403, 442, 482, 401 and 441, and when it is carried out |
| IrcReplies.ModeReplies | merged_irc/cmds/MODE.cpp:12-103 | when MODE answers 403, 442, 482, 472 and 461 |
| IrcReplies.OperatorModeReplies | merged_irc/cmds/MODE.cpp:56-79 | when +o and -o answer 401 and 441, and which modes with a third parameter are carried out |
| IrcReplies.ShortModeReplies | merged_irc/cmds/MODE.cpp:38-103 | which modes are carried out without a third parameter |
| IrcReplies.GateReplies | merged_irc/srcs/server_commands.cpp:178-203 | when a line is answered with 451 and with 421 |
| IrcReplies.RefusalsChangeNothing | merged_irc/cmds/KICK.cpp:18-59 | any command but JOIN that is not carried out changes nothing |
| IrcReplies.NamesByExample | merged_irc/srcs/helpers.cpp:21-49 | the shortest channel name, and the characters of nicknames with those next to them |
| IrcReplies.LettersByExample | merged_irc/srcs/server_commands.cpp:190-192 | upper-casing changes small letters and nothing else |
| IrcServer.Client.Register | merged_irc/srcs/server_commands.cpp:76-107 | registers exactly a client that is authorized, named and not registered yet, and says so |
| IrcServer.Channel.Admits | merged_irc/cmds/JOIN.cpp:33-64 | the channel object changes as admission on values says, with the same reply |
| IrcServer.Channel.Leaves | merged_irc/cmds/PART.cpp:44-46 | takes the client out of members and operators, and for PART out of the invited |
| IrcServer.Server.GetClientByNickname | merged_irc/srcs/server_commands.cpp:109-122 | the iterator loop finds the holder with the lowest descriptor, null without one |
| IrcServer.Server.NickExistsAlready | merged_irc/srcs/helpers.cpp:51-63 | the loop answers whether anybody has the nickname |
| IrcServer.Server.PassCmd | merged_irc/cmds/PASS.cpp:4-32 | the server objects change as the PASS step says, with the same reply; the step authorizes for the right password only, by the rows AuthorizedIff and RegistrationReplies |
| IrcServer.Server.NickCmd | merged_irc/cmds/NICK.cpp:4-41 | the same for NICK, which gives exactly the free valid names, by the rows RenamedIff and NickReplies |
| IrcServer.Server.UserCmd | merged_irc/cmds/USER.cpp:4-31 | the same for USER |
| IrcServer.Server.JoinCmd | merged_irc/cmds/JOIN.cpp:5-64 | the same for JOIN; no channel object is shared |
| IrcServer.Server.PartCmd | merged_irc/cmds/PART.cpp:4-51 | the same for PART, deleting an emptied channel |
| IrcServer.Server.InviteCmd | merged_irc/cmds/INVITE.cpp:5-60 | the same for INVITE |
| IrcServer.Server.KickCmd | merged_irc/cmds/KICK.cpp:5-77 | the same for KICK, deleting an emptied channel; it removes whom it names, by the rows RemovedIff and KickReplies |
| IrcServer.Server.ModeCmd | merged_irc/cmds/MODE.cpp:4-103 | the same for MODE |
| IrcServer.Server.ChangeChannelMode | merged_irc/cmds/MODE.cpp:38-103 | the branches for the flags, on the one channel object; what they set is in the rows LimitIsSet, KeyIs, InviteOnlyIs and TopicRestrictedIs |
| IrcServer.Server.CommandDispatcher | merged_irc/srcs/server_commands.cpp:174-204 | the registration gate and the call through the upper-cased command name |
| IrcServer.Server.AcceptConnection | merged_irc/srcs/Server.cpp:30-46 | adds a client without name or rights |
| IrcServer.Server.RemoveClient | merged_irc/srcs/Server.cpp:48-57 | removes the client and leaves the channels as they are |
| IrcServer.Server.Serve | merged_irc/srcs/server_commands.cpp:174-204 | every connection, disconnect and parsed line does to the objects what the step does to the value |
| IrcServer.ServeRun | merged_irc/srcs/server_commands.cpp:174-204 | serving any run ends in the state of that run, with the invariant |
| MergedParser.ParseCmd | merged_irc/srcs/Server.cpp:59-83 | for any line: the text behind the first colon is the trailing one unless it is empty, the rest is split at spaces, and a command without a space behind it is a parameter as well |
| MergedParser.TakeTrailing | merged_irc/srcs/Server.cpp:65-69 | splits the line at its first colon unless nothing is behind it |
| MergedParser.ReadWords | merged_irc/srcs/Server.cpp:72-81 | the loop pushes the words between spaces, none of them empty |
| MergedParser.ParamsAreNotEmpty | merged_irc/srcs/Command.cpp:15-21 | no line gives a handler an empty parameter |
| MergedAgreement.MergedParserAgreesIff | merged_irc/srcs/Server.cpp:59-83 | on every line both parsers find the same message exactly if no blank or colon stands in front, no tab before the first colon, and that colon is missing, starts a word with something behind it, or ends the line inside a word behind a space |
| MergedAgreement.CleanReadsAlike | merged_irc/srcs/Server.cpp:72-81 | without tabs and word-initial colons the words between spaces are the documented parameters |
| MergedAgreement.TrailingReadsAlike | merged_irc/srcs/Server.cpp:65-69 | a colon at the start of a word gives both the same trailing parameter |
| MergedAgreement.CutWordShows | merged_irc/srcs/Server.cpp:65-69 | a colon inside a word always gives them different parameters |
| MergedAgreement.TabDisagrees | merged_irc/srcs/Server.cpp:70-81 | a tab before the first colon always gives them different messages |
| MergedAgreement.PrintedIsReadIff | merged_irc/srcs/Server.cpp:59-83 | a message in any layout is read as it is meant exactly if its line is one of those |
| MergedAgreement.CanonicalIsReadIff | merged_irc/srcs/Server.cpp:59-83 | in canonical form: exactly if it has no prefix, no colon in front of its last parameter and no empty last parameter |
| MergedAgreement.CutsParameter | merged_irc/srcs/Server.cpp:65-69 | a parameter with a colon inside is cut in two |
| MergedAgreement.CutKey | merged_irc/srcs/Server.cpp:65-69 | "JOIN #room a:b" is read with the key a |
| MergedAgreement.TabBetween | merged_irc/srcs/Server.cpp:63-64 | two words with a tab between them are taken for one command |
| MergedAgreement.SpaceInFront | merged_irc/srcs/Server.cpp:71-71 | behind a leading space the command is empty, while the documented format does not care |
| MergedServer.Reception.HandleClient | merged_irc/srcs/Server.cpp:97-126 | one read: the lines complete now are parsed and dispatched in order, the rest stays in the buffer, and the server is in the state the run so far leads to |
| MergedServer.Reception.TakeLines | merged_irc/srcs/Server.cpp:108-125 | the loop dispatches all lines of the buffer, in order, and leaves the remainder |
| MergedServer.Reception.HandleStream | merged_irc/srcs/Server.cpp:97-126 | several reads of one client in a row: however its bytes are cut, the lines dispatched and the remainder are those of what is kept of them |
| MergedReads.ServeAll | merged_irc/srcs/Server.cpp:30-126 | with connections, reads and disconnects of all clients in any order, the notices of each descriptor are its openings, its closings and the lines of what is kept of its own bytes, and its buffer holds what is left of them |
| MergedReads.SentMore | merged_irc/srcs/Server.cpp:97-126 | one chunk more of a client adds the lines it completes |
| MergedServer.Reception.AcceptConnection | merged_irc/srcs/Server.cpp:30-46 | a connection starts with an empty buffer |
| MergedServer.Reception.RemoveClient | merged_irc/srcs/Server.cpp:48-57 | the client goes with its buffer |
| MergedServer.Reception.StateIsReached | merged_irc/srcs/Server.cpp:97-128 | whatever bytes were received, the server is in the state of a run, with the invariant |
| MergedServer.TraceIsRun | merged_irc/srcs/Server.cpp:97-128 | serving notice after notice is a run |
| MergedServer.ReceivedParamsAreFilled | merged_irc/srcs/Command.cpp:15-21 | a received line gives no handler an empty parameter |
| MergedServer.ReceivedModeShows | merged_irc/cmds/MODE.cpp:38-98 | on a received line turning a setting on always shows, a key included |
| Decimal.StrippedIsCanonical | pracprac/exam/bigint/bigint.cpp:80-85 | stripping leading zeros keeps the number and makes it canonical |
| Decimal.ComparisonIsNumeric | pracprac/exam/bigint/bigint.cpp:160-165 | length first, then lexicographic is the order of the numbers, and equal strings are equal numbers |
| Decimal.LexIsNumeric | pracprac/exam/bigint/bigint.cpp:164-164 | lexicographic order at equal length is numeric order |
| Decimal.LeftShiftMultiplies | pracprac/exam/bigint/bigint.cpp:128-138 | a left shift by n multiplies by ten to the n and stays canonical |
| Decimal.RightShiftDivides | pracprac/exam/bigint/bigint.cpp:147-158 | a right shift by n divides by ten to the n and stays canonical |
| Decimal.ShiftsCancel | pracprac/exam/bigint/bigint.cpp:128-158 | left and then right by the same amount restores the string |
| Bigint.RemoveLeadingZeros | pracprac/exam/bigint/bigint.cpp:80-85 | the loop strips the leading zeros down to one digit |
| Bigint.AddStrings | pracprac/exam/bigint/bigint.cpp:2-23 | for digit strings of any lengths the result stands for the sum and, unless both are empty, is canonical |
| Bigint.Number.AddAssign | pracprac/exam/bigint/bigint.cpp:88-92 | the number becomes the sum, also when added to itself |
| Bigint.Number.Plus | pracprac/exam/bigint/bigint.cpp:94-99 | a new number that is the sum |
| Bigint.Number.Increment | pracprac/exam/bigint/bigint.cpp:106-112 | the number grows by one |
| Bigint.Number.PostIncrement | pracprac/exam/bigint/bigint.cpp:114-119 | grows by one and returns the number before |
| Bigint.Number.ShiftLeftAssign | pracprac/exam/bigint/bigint.cpp:128-138 | multiplies by the power of ten for shifts in the int range; beyond it the conversion fails and the number stays |
| Bigint.Number.ShiftRightAssign | pracprac/exam/bigint/bigint.cpp:147-158 | divides by the power of ten, with the same conversion |
| Bigint.Number.Compare | pracprac/exam/bigint/bigint.cpp:160-175 | all six comparisons are those of the numbers |
| Bigint.ToInt | pracprac/exam/bigint/bigint.cpp:130-130 | the conversion succeeds exactly up to the largest int, with the value |
| PaddedAdder.Addition | pracprac/practice05/level0/bigint/bigint.cpp:56-106 | reversing, padding, the column loop and reversing back compute the string the lemmas below are about |
| PaddedAdder.AddColumns | pracprac/practice05/level0/bigint/bigint.cpp:83-104 | the column loop with the carry that is never cleared |
| PaddedAdder.Reverse | pracprac/practice05/level0/bigint/bigint.cpp:46-54 | character k of the result is character k from the end |
| PaddedAdder.AddedValue | pracprac/practice05/level0/bigint/bigint.cpp:87-102 | for all operands the result is the sum plus the stated excess |
| PaddedAdder.RightIff | pracprac/practice05/level0/bigint/bigint.cpp:95-101 | the result is never below the sum, and is the sum exactly when carries never stop |
| PaddedAdder.AddedIsCanonical | pracprac/practice05/level0/bigint/bigint.cpp:56-106 | on canonical operands no leading zero appears |
| PaddedAdder.SameStringIff | pracprac/practice05/level0/bigint/bigint.cpp:56-106 | on canonical operands the string is that of a right adder exactly when carries never stop |
| PaddedAdder.WrongExample | pracprac/practice05/level0/bigint/bigint.cpp:95-101 | 15 and 27 give 142 |
| LifeRule.RoundCommutes | pracprac/practice05/level1/Life/life.c:106-143 | a round commutes with transposing and reflecting the board |
| LifeRule.GenerationsCommute | pracprac/practice05/level1/Life/life.c:182-187 | so does any number of rounds |
| LifeRule.NeighboursMove | pracprac/practice05/level1/Life/life.c:88-102 | a reflection permutes the eight neighbours, so it keeps their count |
| LifeRule.PenStaysOnBoard | pracprac/practice05/level1/Life/life.c:51-71 | no commands move the pen off the board |
| LifeRule.PenIsDisplaced | pracprac/practice05/level1/Life/life.c:51-71 | while the commands stay inside, the pen is as many cells down and right as s, w, d and a were counted, and down after an odd number of x |
| LifeRule.MovesAreClamped | pracprac/drPractice/lvl_01/00_subject/life/life.c:94-123 | on the board each command moves the pen one cell its way, or leaves it at the border |
| LifeRule.LiveAroundCounts | pracprac/practice05/level1/Life/life.c:85-104 | the sum over the eight places is the number of live cells around |
| LifeRule.LivesNextIff | pracprac/practice05/level1/Life/life.c:122-136 | a cell lives next exactly with three live neighbours, or with two if it lives |
| LifeRule.BlinkerTurns | pracprac/drPractice/lvl_01/00_subject/life/life.c:46-68 | three cells in a row turn into a column and back in two rounds |
| LifeRule.BlockStays | pracprac/drPractice/lvl_01/00_subject/life/life.c:46-68 | four cells in a square stay |
| Life.CountNeighbors | pracprac/practice05/level1/Life/life.c:85-104 | counts the live ones of the eight neighbours, dead outside the board |
| Life.CountNeighboors | pracprac/drPractice/lvl_01/00_subject/life/life.c:22-37 | the same count with the loops the other way round |
| Life.Game.FillBoard | pracprac/practice05/level1/Life/life.c:43-83 | the live cells are exactly those at which a command left the pen lowered |
| Life.Game.MovePen | pracprac/practice05/level1/Life/life.c:51-75 | moves the pen as the rows PenIsDisplaced and MovesAreClamped say; other characters set the flag |
| Life.Game.Play | pracprac/practice05/level1/Life/life.c:106-143 | the new board that is swapped in shows the next generation |
| Life.RunGame | pracprac/practice05/level1/Life/life.c:170-192 | after any commands and k rounds the board shows the k-th generation of the drawing |
| Life.IterGame | pracprac/drPractice/lvl_01/00_subject/life/life.c:46-68 | the board, copied back in place, shows the next generation |
| Life.PenStep | pracprac/drPractice/lvl_01/00_subject/life/life.c:94-129 | the five branches move the pen as the same rows say and light the cell under a lowered pen; other characters do nothing |
| Life.RunInPlace | pracprac/drPractice/lvl_01/00_subject/life/life.c:82-133 | after any commands and k rounds the board shows the k-th generation of the drawing |
| Life.ProgramsAgree | pracprac/drPractice/lvl_01/00_subject/life/life.c:82-134 | both programs end with the same cells alive and the same cells blank, and with the same final board exactly if none is alive |
| Life.ZeroForO | pracprac/practice05/level1/Life/life.c:20-20 | one lit cell, drawn as a zero by one program and as the letter by the other |

## Left out

- BsqColumnFirst.FindBiggestSquare: asks for at least one cell, because the source reads row 0 and column 0 unguarded.
- Life.RunInPlace: asks for at least one cell, because the source writes through the pen unguarded.
- Life.RunGame: says nothing about the picture of a board without cells; there is none.
- Bsq.FindBigSquare: the caller hands in an empty square, as execute_bsq does.
- IrcState.LimitOf: std::atoi on a number outside the int range is undefined in the source and keeps its value here; a negative number wraps to size_t as in the source.
- IrcServer.Server.Serve: the clients of a channel are descriptors; the Client pointers that a channel keeps after a disconnect, and reading through them, are not modelled.
- Polyset.SearchableBag: virtual dispatch is a choice between the two implementations.
- DuplicateTreeBag.Bag.Insert: the pointer to a link is a value naming the root link or a link of a node.
- Reading maps, arguments and files, and printing the results.
- Freeing memory and failing allocations: dropping a tree or an array is dropping the reference.
- Sockets, polling, signals, logging, and the texts of replies; a handler returns the numeric of its reply, and reads arrive as chunks.
- TOPIC, PRIVMSG, CAP, PING, INFO and DEBUGCHANNEL change neither membership nor authority and do nothing here; topics are not modelled, nor is a CAP without parameters, which is undefined in the source.
- MergedServer.Reception.HandleClient: the receive buffers are kept beside the client objects, and the loop works on a copy that is stored at the end; no handler looks at a buffer.
- The command handlers of mserver, which repeat those of the merged server.
- The widths of C ints in sizes, indices and counters; the bigint constructor takes any number.
- Equal behaviour of the further copies of bsq, polyset and bigint, the vect2 class, and the comparisons and shifts of the practice05 bigint.
- The extract and set operations of the duplicate-keeping tree, which repeat those of the other one.
- The pen of the 01_solution Life program, which draws before it moves.
