# Verified model of the FAIRINO ROS 2 packages

A Dafny model of the parts of the repository that hold logic of their own, with proofs
about every input, every run and every interleaving:

- the text command server: splitting, the request envelope, the two taught-point lists,
  motion commands that refer to them, and the handlers that pop long parameter lists
  (`Outcomes`, `CommaText`, `Numbers`, `Envelope`, `Points`, `Commands`, `CommandServer`,
  `CommandHistory`, `CommandTexts`, `NumberTexts`, `Decoders`);
- publication of robot state through shared memory under one semaphore (`Publication`,
  `SharedMemory`);
- the version node: reconnect protocol (`Reconnect`, `ReconnectProgress`) and version,
  package and library names (`VersionName`);
- threaded trajectory playback (`Trajectory`, `Playback`, `PlaybackProgress`);
- the ros2_control hardware interface (`HardwareInterface`).

Code that updates fields or arrays is a class or method of the same shape, proved against a
specification function; the run-level results are proved about those functions. Concurrent
parts are state machines whose steps are single memory accesses or system calls; a run is an
arbitrary list of steps. The SDK, the sockets, the clock, ROS parameters and the controller
manager appear as arbitrary answers given with each step. Undefined behaviour (reading past
the last token, popping an empty list, a missing return, a null robot pointer) is an outcome
of its own after which nothing is claimed.

Where the code differs from what its documentation or names suggest, the model follows the
code:

- `GET` and the definition command are inverse exactly on points with at most six decimals,
  because the reply is printed with six (`CommandHistory.GetDefineRoundTrip`).
- Point indices are 64-bit values truncated to 32 bits, so 4294967297 names entry 1
  (`Points.IndexAliases`).
- A definition text with a trailing comma after the seventh field is accepted
  (`Points.AcceptedExactly`).
- `MoveJ` reads external axes from the request and then overwrites them with feedback.
- A datagram longer than 104 bytes is cut by `recvfrom` and accepted.
- An orderly close by the controller is never recovered (`Reconnect.CloseIsNotRecovered`).
- The library name is wrong for two-digit minor or patch numbers (`VersionName.LibraryRight`),
  and undefined when the reply has no version but a package `fairino_hardware_` is installed
  (`VersionName.SelectPackage`).
- A join that times out lets two playback workers run (`Playback.TimedOutJoinRevives`), and
  since a worker reads the shared callback field at its end, an overtaken worker calls the
  callback of the next `play` (`Playback.TimedOutJoinMiscalls`).
- The sixth joint is not checked for finiteness, `read` always reports OK, and a write after
  a failed activation targets zero (`HardwareInterface`).

## Assumptions

The semaphore is created with value 1 and no holder dies. The timer callback of a node is not
re-entrant and does not fire after `cancel`. Playback is driven by one controlling thread.
Doubles are exact signed magnitudes in the command server and exact reals elsewhere; M_PI is
its decimal literal.

## Model

| member | source | states |
|---|---|---|
| `CommaText.SplitString2List` | fairino_hardware_v3_9_9/src/command_server.cpp:455-464 | the token loop returns exactly the fields of the text, in order, without one empty field at the very end |
| `CommaText.SplitCharacterised` | fairino_hardware_v3_9_9/src/command_server.cpp:455-464 | the result is the only nonempty list of comma-free fields whose comma-join is the text up to one trailing comma |
| `CommaText.SplitCount` | fairino_hardware_v3_9_9/src/command_server.cpp:455-464 | number of tokens: one more than the commas, one less again when the text ends with a comma |
| `CommaText.SplitOfJoin` | fairino_hardware_v3_9_9/src/command_server.cpp:455-464 | joining comma-free fields and splitting again gives them back (last field nonempty, or a single field) |
| `CommaText.TokenIter.NextRest` | fairino_hardware_v3_9_9/src/command_server.cpp:458-463 | dereferencing yields the head of the remaining tokens and advancing drops exactly it |
| `Envelope.ParseCallExact` | fairino_hardware_v3_9_9/src/command_server.cpp:406-410 | a request parses to (name, params) exactly when it is name(params) with an allowed nonempty name and one-line params; so the reading is unique and printing then parsing returns the pair, parentheses in params included |
| `Envelope.UnparsableRequest` | fairino_hardware_v3_9_9/src/command_server.cpp:406-442 | a request is refused exactly when no pair of name and params prints to it |
| `CommandHistory.ErrorsReplyMinusOne` | fairino_hardware_v3_9_9/src/command_server.cpp:408-442 | unparsable requests, unknown names and calls ending in a logic error reply -1 and change nothing |
| `CommandHistory.MinusOneChangesNoList` | fairino_hardware_v3_9_9/src/command_server.cpp:408-442 | conversely a request answered -1 changes neither list, and issues a motion call only when the SDK's own code was -1 |
| `Numbers.ReadPrinted` | fairino_hardware_v3_9_9/src/command_server.cpp:560-566 | atof and stod of a to_string text give the printed value rounded to six decimals, sign of zero included |
| `Numbers.PrintRounded` | fairino_hardware_v3_9_9/src/command_server.cpp:647-652 | printing a value and printing its six-decimal rounding give the same text |
| `Numbers.TextMicroExact` | fairino_hardware_v3_9_9/src/command_server.cpp:560-566 | a coordinate text is stored as a value that six decimals represent if and only if it has no nonzero digit past the sixth decimal |
| `Numbers.AtoLOfDigits` | fairino_hardware_v3_9_9/src/command_server.cpp:552-552 | an index text below 2^31 names itself; larger ones saturate at 64 bits and are truncated to 32 |
| `NumberTexts.IntegerText` | fairino_hardware_v3_9_9/src/command_server.cpp:552-552 | atol and stoi on blanks, a sign, digits and any rest: stoi gives the number or out_of_range, the int index is the number saturated to 64 bits and reduced modulo 2^32 |
| `NumberTexts.NoIntegerText` | fairino_hardware_v3_9_9/src/command_server.cpp:552-552 | without a digit after blanks and sign stoi throws invalid_argument and atol is 0 |
| `NumberTexts.DecimalText` | fairino_hardware_v3_9_9/src/command_server.cpp:560-566 | a plain decimal text of any length is read as exactly the number its digits spell; only a minus makes it negative |
| `NumberTexts.NoDecimalText` | fairino_hardware_v3_9_9/src/command_server.cpp:560-566 | any other text is read as 0 by atof and makes stod throw |
| `NumberTexts.IntPrinted` | fairino_hardware_v3_9_9/src/command_server.cpp:1677-1678 | an integer is printed as a minus for a negative number and its digits without leading zeros |
| `NumberTexts.DoublePrinted` | fairino_hardware_v3_9_9/src/command_server.cpp:647-652 | a double is printed as a minus exactly with the sign bit, digits without leading zeros, a point and six digits spelling the nearest number of millionths |
| `Points.IndexAliases` | fairino_hardware_v3_9_9/src/command_server.cpp:1604-1609 | index texts that differ by 2^32 name the same list entry |
| `Points.MixedSignTest` | fairino_hardware_v3_9_9/src/command_server.cpp:554-554 | the signed/unsigned range test rejects exactly the indices outside 1..n+1, negative ones included |
| `Points.AcceptedExactly` | fairino_hardware_v3_9_9/src/command_server.cpp:536-557 | a definition is accepted exactly for allowed characters, six commas (seven when the text ends with one) and an index in 1..n+1 |
| `Points.SplitReply` | fairino_hardware_v3_9_9/src/command_server.cpp:541-550 | the text `i,` + reply passes the character filter and splits into exactly the index and the six printed coordinates |
| `Points.GetThenDefine` | fairino_hardware_v3_9_9/src/command_server.cpp:534-575 | redefining entry i with its own printed reply is accepted and leaves the list unchanged if and only if the point has at most six decimals; the reply is the same afterwards in any case |
| `Points.DefineThenGet` | fairino_hardware_v3_9_9/src/command_server.cpp:639-667 | after an accepted definition the GET of that index yields the values just given, in either list |
| `Points.GetExactly` | fairino_hardware_v3_9_9/src/command_server.cpp:639-667 | GET answers exactly JNT, or CART, followed by digits that name an entry of that list, with that entry |
| `CommandHistory.GetDefineRoundTrip` | fairino_hardware_v3_9_9/src/command_server.cpp:534-667 | as whole commands, for joint and Cartesian lists: GET, then the definition command with its reply, restores the entire state iff the point has at most six decimals, and only rounds that one entry otherwise |
| `CommandHistory.DefinedTextRoundTrip` | fairino_hardware_v3_9_9/src/command_server.cpp:534-667 | the condition on the text the server receives: after an accepted definition, GET and the definition of its reply restore the state iff none of the six coordinate texts has a nonzero digit past the sixth decimal |
| `CommandHistory.TinyCoordinateLost` | fairino_hardware_v3_9_9/src/command_server.cpp:534-667 | the failing side: with JNTPoint(1,0.0000001,0,0,0,0,0) the pair of commands changes the stored point |
| `CommandTexts.StoresWhatIsWritten` | fairino_hardware_v3_9_9/src/command_server.cpp:534-630 | a definition request written with six numbers stores exactly those numbers under its index, and nothing else changes |
| `CommandTexts.AcceptedStoresNumbers` | fairino_hardware_v3_9_9/src/command_server.cpp:534-630 | for every accepted text, each stored coordinate is the number its field spells, or zero if it spells none |
| `CommandServer.Server.DefJntPosition` | fairino_hardware_v3_9_9/src/command_server.cpp:534-575 | the imperative handler: reply -1 and no change when the text is rejected, otherwise overwrite or append exactly the named entry |
| `CommandServer.Server.OverwriteJoints` | fairino_hardware_v3_9_9/src/command_server.cpp:557-561 | the in-place overwrite loop replaces all six coordinates of the entry and nothing else |
| `CommandServer.Server.AppendJoints` | fairino_hardware_v3_9_9/src/command_server.cpp:562-569 | the append loop adds one point with the six coordinates read |
| `CommandServer.Server.DefCartPosition` | fairino_hardware_v3_9_9/src/command_server.cpp:584-630 | the same for the Cartesian list, with the coordinates in the order x, y, z, rx, ry, rz |
| `CommandServer.Server.GetVariable` | fairino_hardware_v3_9_9/src/command_server.cpp:639-677 | success replies the six printed coordinates of the entry; every other path has no defined reply |
| `CommandServer.Server.MoveJ` | fairino_hardware_v3_9_9/src/command_server.cpp:1574-1679 | the iterator-driven handler issues exactly the call described by field positions, or none, with the options taken from ROS parameters; the external axes sent are the feedback cells, not those of the request |
| `CommandServer.Server.MoveL` | fairino_hardware_v3_9_9/src/command_server.cpp:1688-1769 | the same for linear motion, where external axes of the request are sent |
| `CommandServer.Server.SplinePTP` | fairino_hardware_v3_9_9/src/command_server.cpp:1976-2025 | the same for joint spline points |
| `CommandServer.Server.NewSplinePoint` | fairino_hardware_v3_9_9/src/command_server.cpp:2057-2113 | the same for Cartesian spline points |
| `CommandServer.Server.ParseRosCommand` | fairino_hardware_v3_9_9/src/command_server.cpp:402-443 | the service callback: match, dispatch, and replacement of logic errors by -1, on the class fields |
| `Commands.LookupExact` | fairino_hardware_v3_9_9/src/command_server.cpp:1605-1609 | resolving an index: the entry for 1..n, an out_of_range exception for 0, an early -1 otherwise |
| `CommandHistory.ListStep` | fairino_hardware_v3_9_9/src/command_server.cpp:534-630 | a request changes a list only when it is an accepted definition, and then only its own index, at most one past the end |
| `CommandHistory.StoreRefinesMap` | fairino_hardware_v3_9_9/src/command_server.cpp:534-630 | after any history of requests, entry i holds p if and only if the most recent accepted definition of index i said p; the domain is exactly 1..n |
| `CommandHistory.RunBounded` | fairino_hardware_v3_9_9/src/command_server.cpp:552-568 | no run grows a list beyond 2^31 - 1 entries |
| `CommandHistory.MotionFires` | fairino_hardware_v3_9_9/src/command_server.cpp:1603-1669 | a motion call is issued if and only if the named entry exists, its kinematics succeed and the numeric fields are readable |
| `CommandHistory.UnnamedPointRefused` | fairino_hardware_v3_9_9/src/command_server.cpp:1604-1609 | index 0, missing digits or an index outside the list: reply -1 and no motion call |
| `CommandTexts.NameIndex` | fairino_hardware_v3_9_9/src/command_server.cpp:1603-1609 | JNT7 and CART7 name entry 7; without digits the index is 0 |
| `CommandTexts.OtherNamesRefused` | fairino_hardware_v3_9_9/src/command_server.cpp:1646-1649 | a first field of another shape gives reply -1 and no motion call |
| `CommandTexts.MovesWhereNamed` | fairino_hardware_v3_9_9/src/command_server.cpp:1603-1679 | for each of the four commands and both lists: the request text that names an existing entry, with working kinematics, issues exactly the call it asks for, with the value of that entry, every number of the request and every ROS parameter in its place |
| `CommandTexts.MovesWhereTaught` | fairino_hardware_v3_9_9/src/command_server.cpp:534-1679 | in any run, a definition written with six numbers followed by a motion request for its index moves to exactly those numbers |
| `CommandHistory.MotionProvenance` | fairino_hardware_v3_9_9/src/command_server.cpp:1603-1649 | in every run the motion calls come, in order, from strictly increasing requests, each naming an entry; a call carries the value most recently stored under that name, the kinematic solution of that same value, and the numbers of that request |
| `CommandHistory.CallStep` | fairino_hardware_v3_9_9/src/command_server.cpp:1677-1678 | a request issues at most one motion call, and a justified one |
| `Decoders.ReadAllDone` | fairino_hardware_v3_9_9/src/command_server.cpp:487-518 | popping succeeds exactly when every field is present and converts, field i giving value i |
| `Decoders.ReadAllUndefined` | fairino_hardware_v3_9_9/src/command_server.cpp:487-518 | an empty list is popped exactly when fields are missing and all present ones convert |
| `Decoders.FieldList.PopGroup` | fairino_hardware_v3_9_9/src/command_server.cpp:513-518 | a pop loop reads the first fields and removes exactly those |
| `Decoders.FieldList.PopGroups` | fairino_hardware_v3_9_9/src/command_server.cpp:6072-6120 | a sequence of pop groups reads consecutive slices and removes exactly their total |
| `Decoders.GroupReadsAtPrefixSum` | fairino_hardware_v3_9_9/src/command_server.cpp:6072-6168 | for any widths, element i of group j is the conversion of the field at the sum of the earlier widths plus i |
| `Decoders.DecodeRecord` | fairino_hardware_v3_9_9/src/command_server.cpp:6072-6168 | FT_Control and the two intersection-line handlers: choice of form by field count, and what stays unread |
| `Decoders.SchemaTotals` | fairino_hardware_v3_9_9/src/command_server.cpp:10594-10781 | the long forms need 36, 139 and 150 fields, the short ones 32, 79 and 79 |
| `Decoders.RecordCompleteness` | fairino_hardware_v3_9_9/src/command_server.cpp:10694-10781 | the long form is used exactly at its count and reads every field once; an empty list is popped iff the short form lacks fields and all present ones convert |
| `Decoders.FieldKinds` | fairino_hardware_v3_9_9/src/command_server.cpp:6072-6168 | which fields of the three records are read as integers and which as reals, by position, in the long and short forms |
| `Decoders.FillPoints` | fairino_hardware_v3_9_9/src/command_server.cpp:1937-1942 | the outer batch loop yields the consecutive groups of six, none for a negative count |
| `Decoders.ServoJMultiPoint` | fairino_hardware_v3_9_9/src/command_server.cpp:1931-1955 | the nested fill loops compute the batch described by field positions |
| `Decoders.BatchRoundTrip` | fairino_hardware_v3_9_9/src/command_server.cpp:1931-1955 | encoding any list of points with axes and period as comma text and decoding it gives exactly those points in order, rounded to six decimals |
| `Decoders.BatchUnderflow` | fairino_hardware_v3_9_9/src/command_server.cpp:1935-1950 | with count n, an empty list is popped iff there are fewer than 1 + 6*max(n,0) + 5 fields and all present ones convert |
| `Decoders.ToolSplice` | fairino_hardware_v3_9_9/src/command_server.cpp:728-733 | for parameters of k fields the appended defaults are the fields k and k+1 |
| `Decoders.CollisionSplice` | fairino_hardware_v3_9_9/src/command_server.cpp:949-954 | the prepended mode is field 0 and the appended configuration the last field |
| `Decoders.SetTool` | fairino_hardware_v3_9_9/src/command_server.cpp:725-798 | SetToolCoord and SetToolList decode the spliced text |
| `Decoders.SetAnticollision` | fairino_hardware_v3_9_9/src/command_server.cpp:946-964 | the collision handler decodes the spliced text |
| `Decoders.ToolDefaults` | fairino_hardware_v3_9_9/src/command_server.cpp:734-739 | the defaults are read as type and installation iff seven fields were given; what is read with eight or more |
| `Decoders.CollisionDefaults` | fairino_hardware_v3_9_9/src/command_server.cpp:956-962 | the mode is always the default, the configuration is the default when six levels were given and the caller's seventh field when there are more |
| `Decoders.SpliceKinds` | fairino_hardware_v3_9_9/src/command_server.cpp:725-964 | which fields of the spliced handlers are read as integers and which as reals |
| `Decoders.SpliceUnderflow` | fairino_hardware_v3_9_9/src/command_server.cpp:725-798 | the spliced handlers pop an empty list exactly below seven (six) fields, if everything converts |
| `Publication.Publisher.Repack` | fairino_hardware_v3_9_9/src/CNDE_thread.cpp:94-112 | the word-copy loops build exactly the packed image |
| `Publication.ImageWords` | fairino_hardware_v3_9_9/include/fairino_hardware/data_type_def.h:42-50 | every word of the image by byte offset: timestamp, joint words, axis words, TCP words, and the TCP words again as flange |
| `Publication.Publisher.StateRecvCallback` | fairino_hardware_v3_9_9/src/CNDE_thread.cpp:86-122 | one uninterrupted callback: the first 184 bytes become the image iff at least 104 bytes arrived and the semaphore is free; otherwise nothing changes |
| `SharedMemory.NoTornReads` | fairino_hardware_v3_9_9/examples/src/srv_test_client.cpp:51-58 | for any number of readers and any interleaving of byte copies, every finished read is a range of one complete published region (or the initial zeros), and later reads never see older ones |
| `SharedMemory.ReleaseDelivers` | fairino_hardware_v3_9_9/examples/src/srv_test_client.cpp:51-58 | in every run a release that ends a reader hands it exactly the range that reader arrived for, all its bytes, as the region holds them at that moment |
| `SharedMemory.ReadCompletes` | fairino_hardware_v3_9_9/examples/src/srv_test_client.cpp:51-58 | whenever the semaphore is free, a new reader that arrives, acquires, loads and releases is handed exactly the bytes it asked for and leaves everything else as it was |
| `SharedMemory.OneHolderAlways` | fairino_hardware_v3_9_9/src/CNDE_thread.cpp:115-118 | semaphore value plus number of holders is one in every reachable world |
| `SharedMemory.PublicationOrder` | fairino_hardware_v3_9_9/src/CNDE_thread.cpp:86-118 | the committed frames are a subsequence of the accepted ones and each accepted frame is committed, dropped or pending |
| `SharedMemory.SubsequencePositions` | fairino_hardware_v3_9_9/src/CNDE_thread.cpp:86-118 | what subsequence means: strictly increasing positions |
| `SharedMemory.DroppedExactlyWhenRead` | fairino_hardware_v3_9_9/src/CNDE_thread.cpp:115-118 | in every run the writer drops its frame exactly when some reader is inside its critical section; the region is one complete published region, byte for byte the same before and after, and nothing is committed |
| `SharedMemory.PublishOrDrop` | fairino_hardware_v3_9_9/src/CNDE_thread.cpp:86-122 | from any reachable world with the writer idle: a short datagram is ignored, a full one is dropped when a reader is inside, and otherwise published whole if the writer is then left alone |
| `SharedMemory.Separation` | fairino_hardware_v3_9_9/src/CNDE_thread.cpp:94-118 | readers never change the region, the writer or each other; the writer never changes readers or what they took |
| `SharedMemory.UncontendedPublication` | fairino_hardware_v3_9_9/src/CNDE_thread.cpp:86-118 | the atomic steps of one publication without interference have the effect of the sequential callback |
| `Reconnect.OwnershipToken` | fairino_hardware/src/fairino_version.cpp:160-211 | in every interleaving the two threads never operate on the socket together; with the flag down and the timer alive the shared descriptor is open and connected; at most one reply is processed |
| `Reconnect.SocketConservation` | fairino_hardware/src/fairino_version.cpp:162-206 | in every run, with descriptor numbers reused by the system, no descriptor is closed twice or used after close, at most one is open, and it is the shared one or the thread's candidate |
| `ReconnectProgress.Recovers` | fairino_hardware/src/fairino_version.cpp:160-210 | from every reachable state with the flag up, once the system grants a socket and a connection, at most twelve thread steps under any interleaving reach a connected socket with the flag down |
| `ReconnectProgress.KeepsPolling` | fairino_hardware/src/fairino_version.cpp:162-208 | from every reachable state the thread looks at the flag again within nine of its steps, whatever the system answers, and acts on what it sees |
| `ReconnectProgress.ReplyIsHandled` | fairino_hardware/src/fairino_version.cpp:261-287 | with the flag down and the timer waiting, a reply has been handled after eight timer steps under any interleaving |
| `ReconnectProgress.TimeoutRaises` | fairino_hardware/src/fairino_version.cpp:398-403 | with the flag down and the timer waiting, receives that time out raise the flag within four timer steps under any interleaving |
| `Reconnect.SilentAfterReply` | fairino_hardware/src/fairino_version.cpp:281-287 | after a reply was processed neither thread makes a system call again |
| `Reconnect.CloseIsNotRecovered` | fairino_hardware/src/fairino_version.cpp:394-397 | as long as receives only report an orderly close or another error than a timeout, the flag never rises and nothing is reconnected |
| `Reconnect.VersionNode.ReconnectPass` | fairino_hardware/src/fairino_version.cpp:160-210 | one pass of the reconnect loop on the node's fields is a run of its atomic steps; it lowers the flag exactly when a socket was created and connected |
| `Reconnect.VersionNode.StateRecvCallback` | fairino_hardware/src/fairino_version.cpp:261-287 | the timer callback on the node's fields is a run of its atomic steps; only a timeout raises the flag |
| `VersionName.FindVersion` | fairino_hardware/src/fairino_version.cpp:290-295 | the search returns the leftmost `v` whose nonempty comma-free run is followed by `,V`, and none iff there is none |
| `VersionName.MatchUnique` | fairino_hardware/src/fairino_version.cpp:290-295 | a match is determined by where it starts |
| `VersionName.ReplaceDots` | fairino_hardware/src/fairino_version.cpp:308-308 | the in-place loop replaces every dot and nothing else |
| `VersionName.SamePackage` | fairino_hardware/src/fairino_version.cpp:308-309 | two versions select the same package iff they agree up to exchanging dots and underscores; without underscores distinct versions select distinct packages |
| `VersionName.LibraryRight` | fairino_hardware/src/fairino_version.cpp:342-351 | for every version the library is 2.(minor-6).patch exactly under a condition on the three numbers; for a one-digit major version: minor and patch have one digit |
| `VersionName.LibraryReads` | fairino_hardware/src/fairino_version.cpp:342-351 | the name is read past the end of the version exactly below five characters; otherwise it is made of the characters 3 and 5, the terminator standing in for a missing one |
| `VersionName.SelectPackage` | fairino_hardware/src/fairino_version.cpp:288-390 | the reply handler: package and library of the leftmost match; without one the bare prefix, and a read past the end of the version if a package is installed under that name |
| `Trajectory.AssignGroup` | roboplan-ros/roboplan_ros_py/roboplan_ros_py/trajectory_publisher.py:60-60 | the in-place group assignment |
| `Trajectory.AssignByPosition` | roboplan-ros/roboplan_ros_py/roboplan_ros_py/trajectory_publisher.py:60-60 | an index from -n to n-1 sets that joint, negative ones counting from the end; any other cannot be assigned |
| `Trajectory.AssignLocal` | roboplan-ros/roboplan_ros_py/roboplan_ros_py/trajectory_publisher.py:60-60 | joints outside the group keep their value, joints inside do not depend on the old one |
| `Trajectory.AssignInside` | roboplan-ros/roboplan_ros_py/roboplan_ros_py/trajectory_publisher.py:60-60 | every joint of the group has its waypoint value iff no joint is given two different values |
| `Trajectory.RunWorker` | roboplan-ros/roboplan_ros_py/roboplan_ros_py/trajectory_publisher.py:56-64 | the worker loop over one reused array publishes each waypoint on the start configuration, up to the first stop or failed assignment |
| `Playback.PlaybackContent` | roboplan-ros/roboplan_ros_py/roboplan_ros_py/trajectory_publisher.py:53-66 | in every run each worker has published a prefix of its own trajectory in order, and completed at most once, as its last action, having published all of it |
| `PlaybackProgress.StopIsObeyed` | roboplan-ros/roboplan_ros_py/roboplan_ros_py/trajectory_publisher.py:56-75 | once stop or play has set the event, and until it is cleared, a worker publishes at most the waypoint it was about to publish, calls back only if it had already seen the event down, and ends within five of its own steps |
| `PlaybackProgress.EveryWorkerEnds` | roboplan-ros/roboplan_ros_py/roboplan_ros_py/trajectory_publisher.py:56-66 | every worker ends after at most 3 * waypoints + 5 of its own steps, whatever else happens |
| `PlaybackProgress.StopReturns` | roboplan-ros/roboplan_ros_py/roboplan_ros_py/trajectory_publisher.py:71-75 | so the join of a stop can return without a timeout, and playback is then stopped |
| `PlaybackProgress.EndsForAReason` | roboplan-ros/roboplan_ros_py/roboplan_ros_py/trajectory_publisher.py:56-66 | in every run a worker that has ended did so at the event, at a waypoint that cannot be assigned, or after its last waypoint at the callback test or call |
| `PlaybackProgress.PlayRunsToTheEnd` | roboplan-ros/roboplan_ros_py/roboplan_ros_py/trajectory_publisher.py:37-69 | from any reachable idle state, a play whose worker is left alone publishes every waypoint in order up to the first that cannot be assigned, and calls its own callback once exactly when that was all of them |
| `Playback.PlaybackExclusion` | roboplan-ros/roboplan_ros_py/roboplan_ros_py/trajectory_publisher.py:49-75 | if every join returns because the worker ended: at most one worker is live, it is the last one started, and a completion calls the function given to its own play |
| `Playback.QuietAfterStop` | roboplan-ros/roboplan_ros_py/roboplan_ros_py/trajectory_publisher.py:71-75 | between a returned stop and the next play nothing is published, whatever the threads do |
| `Playback.PlaybackCompletion` | roboplan-ros/roboplan_ros_py/roboplan_ros_py/trajectory_publisher.py:65-66 | if every join returns because the worker ended: a callback is called exactly once for each play that was given it and whose own worker completed, each having published its whole trajectory; so at most once per play |
| `Playback.TimedOutJoinMiscalls` | roboplan-ros/roboplan_ros_py/roboplan_ros_py/trajectory_publisher.py:49-66 | the condition is needed for callbacks too: a run in which a worker overtaken by a second play calls the second play's callback before anything of that play was published |
| `Playback.TimedOutJoinRevives` | roboplan-ros/roboplan_ros_py/roboplan_ros_py/trajectory_publisher.py:49-75 | the condition is needed: for any two trajectories there is a run in which a join times out, clearing the event revives the old worker, and it publishes after the new one was started |
| `Playback.TrajectoryPublisher.Stop` | roboplan-ros/roboplan_ros_py/roboplan_ros_py/trajectory_publisher.py:71-75 | stop on the publisher's fields is its run of steps |
| `Playback.TrajectoryPublisher.Play` | roboplan-ros/roboplan_ros_py/roboplan_ros_py/trajectory_publisher.py:37-69 | play on the publisher's fields is its run of steps |
| `HardwareInterface.FairinoHardwareInterface.OnActivate` | fairino_hardware_v3_9_9/src/fairino_hardware_interface.cpp:105-147 | activation zeroes the arrays and, if both SDK calls succeed, sets the commands to the measured angles in radians |
| `HardwareInterface.FairinoHardwareInterface.OnDeactivate` | fairino_hardware_v3_9_9/src/fairino_hardware_interface.cpp:151-159 | deactivation gives the robot up |
| `HardwareInterface.FairinoHardwareInterface.ReadJoints` | fairino_hardware_v3_9_9/src/fairino_hardware_interface.cpp:163-180 | a successful read converts all six angles, a failed one changes nothing, and both report OK |
| `HardwareInterface.FairinoHardwareInterface.WriteJoints` | fairino_hardware_v3_9_9/src/fairino_hardware_interface.cpp:182-212 | a write checks, converts and sends the six commands, by control mode |
| `HardwareInterface.Units` | fairino_hardware_v3_9_9/src/fairino_hardware_interface.cpp:139-195 | the two conversions by what they mean: 180 degrees are one M_PI |
| `HardwareInterface.ServoTargets` | fairino_hardware_v3_9_9/src/fairino_hardware_interface.cpp:135-196 | in every run each ServoJ is sent with the robot held, and each joint's target times M_PI is 180 times its last command since the last activation, else the angle that activation measured, else (failed activation) zero |
| `HardwareInterface.NoJumpStart` | fairino_hardware_v3_9_9/src/fairino_hardware_interface.cpp:135-196 | after a successful activation without commands, every write targets exactly the measured angles in degrees |
| `HardwareInterface.WriteVerdict` | fairino_hardware_v3_9_9/src/fairino_hardware_interface.cpp:184-188 | after any history with an activation, a write is rejected iff the last value asked of one of joints 1 to 5 is not finite, and otherwise sends a target, or uses a null pointer when the robot was given up; a non-finite joint 6 is sent |
| `HardwareInterface.NullPointerExactly` | fairino_hardware_v3_9_9/src/fairino_hardware_interface.cpp:151-180 | reading and deactivating report OK whatever the SDK answers, and use a null pointer exactly when there was no activation since the last deactivation |
| `HardwareInterface.JointStateTraced` | fairino_hardware_v3_9_9/src/fairino_hardware_interface.cpp:105-178 | after any history the exported joint state is the last successful read since the last activation, in radians, else zero |
| `HardwareInterface.WriteAfterFailedActivation` | fairino_hardware_v3_9_9/src/fairino_hardware_interface.cpp:111-145 | a write after a failed activation targets zero on every joint |

## Left out

- Numbers.ScanReal: plain decimal text only; exponents, hexadecimal, infinities and NaN text are not modelled (none of them passes the character filter of the definition commands), nor is overflow of `strtod` by hundreds of digits.
- Numbers.Round6: rounding of a decimal text to the nearest double is not modelled; doubles are exact.
- Decoders.PopGroups: narrowing of decoded numbers to `uint8_t`, `float` or `int` happens after the fields are read and is not modelled.
- Decoders.DecodeRecord: the narrowing of the numbers read, the SDK call they are passed to and its reply.
- Decoders.ServoJMultiPoint: the SDK call the batch is passed to and its two-part reply.
- Decoders.SetTool: the truncation of the `stod` results to `int` in SetToolList, and the SDK call.
- Decoders.SetAnticollision: the narrowing of the six levels to `float`, and the SDK call.
- Commands.Call: the several hundred handlers that only forward a fixed list to the SDK are one arbitrary outcome; none of them touches the point lists.
- `MoveC`: its joint arguments are shadowed by local variables in the JNT branch, so no provenance is claimed.
- Commands.OptionsFor: the narrowing of `double` ROS parameters to `float`; the values are given as narrowed.
- `_state_recv_callback` of the command server: field-by-field copying, present only as the source of the external-axis feedback.
- Symbolic links, shell commands and process launch after a package was selected; keep-alive options.
- Destructors, the shutdown race of the detached reconnect thread, and process exit paths.
- Trajectory.RunWorker: numpy broadcasting of a waypoint shorter than the group counts as a failed assignment.
- A completion callback that itself calls `play` or `stop`.
- The planner node, the IK wrapper, launch files, documentation and Docker files.
