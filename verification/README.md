# CPS, modelled in Dafny

CPS is a data-centric bus between the services of a network device. Applications exchange *objects*, which are a
key and a buffer of nested attributes; services own keys and answer get and commit requests; objects and events
can also go through databases. This project models the parts of it that are hardest to get right, in the form
the code has, and proves what they promise.

| module | what it models |
|---|---|
| `Bytes`, `Tlv`, `TlvPath` | bytes and words; one run of attributes; nested attributes, path lookup and what adding at a path is meant to produce |
| `Forest` | the attribute trees an application has in mind, and the tree edit that the byte edit has to amount to |
| `Merge`, `Compact` | merging the attributes of one object into another; removing the temporary ones |
| `CpsObject` | the object itself: a growable buffer edited in place |
| `RefCount` | handles on objects, object lists and reference counts |
| `Wire` | the get and commit messages between a client and a service, byte by byte |
| `Dispatch` | the table of registered handlers and the choice of one |
| `Transaction` | committing a list of changes and rolling back |
| `DbKey` | database keys, escaping and the patterns that select keys |
| `Pipeline` | bulk database operations that send a window of requests before reading replies |
| `DbSync` | bringing one database in line with another: mark, copy, sweep |
| `EventQueue` | the event publisher: many producers, one draining thread, retries at the head |
| `Subscriber` | the event subscriber: groups, nodes, keys, and connections that come and go |

An operation that works by changing things is a method proved against a function on values; the promises are then
lemmas about that function. Losslessness of the attribute header is all that is assumed of the library that lays
it out (`Bytes.WORDS` is any lossless coding of 64-bit words in eight bytes, and a header is two of them: the tag
and the length). A database connection is a queue of replies that may break at any time, a scan lists every
selected key that is there throughout, possibly more than once, and the pattern language of the database is
written out in `DbKey.Matches`.

## Where the code departs from what it is meant to do

Each of these is modelled as the code is, with a concrete failing case and the condition under which the promise
holds.

- Adding at a path makes two passes. The first is not bounded by the container it has entered, so it can take a
  later attribute for a missing container and reserve too little room: `Forest.ShadowedExample`. It goes right exactly
  when no right sibling of an enclosing container carries the tag of the missing one (`Forest.PassesAgreeOnTrees`,
  `CpsObject.Object.AddEmbedded`); otherwise the first bytes behind the container are overwritten, a header's worth
  for each container taken wrongly (`CpsObject.Clobbered`).
- A merge repeated is not always a no-op: `Merge.MergeTwiceFails` and `Merge.MergeTwiceFailsFromEmpty`, and exactly
  when it is, `Merge.MergeTwice`. A merge that runs out of room has already removed what it was to replace
  (`CpsObject.Object.MergeFrom`).
- Removing temporary attributes steps over the first attribute after each removal: `Compact.CompactFails`, and exactly
  when nothing temporary is left, `Compact.CompactExact`.
- A swap exchanges the flag that says whether an object is to be freed, which belongs to the memory and not to
  the content: `RefCount.Store.Swap` keeps the accounting exactly when both objects are of one kind, and
  `RefCount.MixedSwap` shows what is freed otherwise.
- Reserving less than is used leaves an object whose free space has wrapped around: `CpsObject.Object.Realloc`, and
  exactly when the object stays well formed.
- A full event queue makes a publisher fail where it was to wait (`EventQueue.PublishRefused`), and the trim of the
  red line keeps the length minus the limit (`EventQueue.LimitExact`); it is reached by no run if the red line is above
  the maximum, and by some run otherwise (`EventQueue.NoTrim`, `EventQueue.TrimReached`).
- A get whose reply breaks off can be reported as a success, with a timeout and without: `Wire.FailureTakenForSuccess`,
  and exactly when, `Wire.GetCutSucceeds`.
- The return code of a commit is added behind the attributes of the object that is sent back, so an attribute that
  claims more bytes than there are swallows it and the client reads a success: `Wire.CodeSwallowed`. It is read back if
  the object holds whole attributes (`Wire.CommitRoundTrip`).
- Whether a failed change may be skipped is read from the object after the service's answer was exchanged into it. A
  service that sends the object back without the caller's flag makes the transaction stop: `Transaction.FlagLost`, and
  exactly when the caller's flags decide, `Transaction.FlagsHonoured`.
- The rollback of a database delete is another delete (`Transaction.RollbackOperExact`); a failure that is skipped
  misplaces the previous objects of later changes (`Transaction.PrevMisplaced`, `Transaction.PrevAligned`).
- A destination record without an object is filled and then swept (`DbSync.FullRecordsNeeded`), or has another
  record deleted in its stead (`DbSync.BareRecordTakesAnother`), so a run can lose source objects
  (`DbSync.RunLoses`). All runs converge exactly when there is no such record or the source has nothing selected
  (`DbSync.SyncExact`).
- A bulk merge that fails leaves replies in the connection (`Pipeline.MergeStrays`), which a later operation on a local
  connection takes for its own (`Pipeline.NextTakesStray`); every operation is stated for connections that hold such
  replies (`Pipeline.MergeShifted`, `Pipeline.GetShifted`). A bulk get reports success although replies were lost,
  since a lost reply leaves the return code at OK: `Pipeline.SuccessWithoutRecord`, and exactly when its results are
  the records all the same, `Pipeline.FetchedExact`.
- A value that contains the key separator makes instances share a key (`DbKey.KeysCollide`), exactly when the class has
  another key attribute (`DbKey.KeysExact`).
- A query can select instances that do not agree with it: its last value ends like a separator begins (`DbKey.LooseEnd`),
  an attribute is given behind one that is not (`DbKey.GapSelects`), or a stored value holds the separator and with it
  two of the values asked for (`DbKey.HeldTogether`), as the bytes of a number can. Exactly when a query selects the
  instances of its class that agree with it is `DbKey.ClassSelected`: a query for two values or more never does. Among
  the instances whose values are free of the separator more queries do, and `DbKey.InstancesSelected` says which.
- A value that is a lone star is taken for a wildcard and then escaped, so it selects the values that begin with a star
  (`DbKey.StarEscaped`).

## Model

| member | source | states |
|---|---|---|
| Tlv.ParseFlat | src/cps_api_object.cpp:674-677 | a stored run of attributes walks back as the same attributes |
| Tlv.FlatParse | src/cps_api_object.cpp:674-677 | every byte string is the stored form of what a walk over it sees, so nothing is lost between the two views |
| TlvPath.AddThenLookup | src/cps_api_object.cpp:504-557 | a path that did not resolve resolves, after an add, to exactly the data added |
| TlvPath.AddFrame | src/cps_api_object.cpp:504-557 | every other lookup after an add: an enclosing container is seen grown by the add, all unrelated paths resolve as before |
| TlvPath.AddExact | src/cps_api_object.cpp:504-557 | an object whose bytes are exactly a run of attributes stays one |
| TlvPath.PassesAgree | src/cps_api_object.cpp:512-538 | the two passes of the add find the same depth if and only if the path is not ambiguous |
| Forest.AddRefinesTree | src/cps_api_object.cpp:504-557 | the byte edit of an encoded tree is the encoding of the tree edit: the leaf goes to the end of the deepest existing box, missing boxes around it, all else unchanged |
| Forest.TailShadows | src/cps_api_object.cpp:512-517 | on a tree, ambiguity means that a right sibling of an enclosing box carries the tag of the missing box |
| Forest.PassesAgreeOnTrees | src/cps_api_object.cpp:512-538 | the passes agree on a tree if and only if no right sibling shadows the path |
| Forest.ShadowedExample | src/cps_api_object.cpp:512-517 | a tree and a path on which the passes disagree |
| Merge.MergedParses | src/cps_api_object.cpp:295-345 | the merged bytes are the destination's attributes without the source's tags, then the source's without its zero-length tags |
| Merge.MergeLaw | src/cps_api_object.cpp:295-345 | per tag the last writer wins: source values replace all destination values, a zero-length source entry removes the tag, other tags keep values and order; an empty destination takes everything as it is |
| Merge.MergeTwice | src/cps_api_object.cpp:295-345 | repeating a merge changes nothing if and only if there is nothing to merge, or the destination was empty and no zero-length entry was merged, or it was not and something is left |
| Merge.MergeTwiceFails | src/cps_api_object.cpp:295-345 | a merge that empties an object stores the zero-length entry when repeated |
| Merge.MergeTwiceFailsFromEmpty | src/cps_api_object.cpp:295-345 | merged into an empty object, a zero-length entry is stored, and removed when the merge is repeated |
| Compact.CompactKeeps | src/non-core/cps_api_object_tools.cpp:286-299 | lasting attributes are kept in order, and only the first attribute of the result can be a temporary one |
| Compact.CompactExact | src/non-core/cps_api_object_tools.cpp:286-299 | exactly the lasting attributes are left if and only if none of the temporary attributes that come to stand first stays there |
| Compact.CompactFails | src/non-core/cps_api_object_tools.cpp:291-297 | of two different temporary attributes in front the second stays |
| CpsObject.Object.RemoveTemporary | src/non-core/cps_api_object_tools.cpp:286-299 | the in-place walk leaves what `Compacted` says, on any bytes |
| CpsObject.Object.Realloc | src/cps_api_object.cpp:157-169 | a resize keeps the key, and fails for a caller's buffer or a size that cannot be had; the free space follows modulo two to the 64, and the object stays well formed with its attributes if and only if the size is not below what is used |
| CpsObject.Object.Reserve | src/cps_api_object.cpp:211-217 | succeeds exactly if there is or can be made room, and keeps the contents |
| CpsObject.Object.AddAttribute | src/cps_api_object.cpp:497-502 | a plain add appends one attribute, or changes nothing; whole attributes stay whole |
| CpsObject.Object.FirstPass | src/cps_api_object.cpp:512-517 | the first pass counts the depth of a scan bounded only by the end of the object |
| CpsObject.Object.PatchLengths | src/cps_api_object.cpp:526-540 | every enclosing length is grown, such that inserting the new bytes at the end found completes the edit |
| CpsObject.Object.WriteNested | src/cps_api_object.cpp:545-553 | missing containers and the attribute are written one inside the other with the lengths reckoned, and no other byte changes |
| CpsObject.Object.Insert | src/cps_api_object.cpp:539-556 | the tail is shifted by the room made and the nested attributes are written, over the first bytes of the tail if they need more |
| CpsObject.Object.AddEmbedded | src/cps_api_object.cpp:504-557 | succeeds exactly if there is room; the resulting bytes in every case that stays within the object, and that they are the meant edit if and only if both passes find the same depth |
| CpsObject.Object.Add | src/cps_api_object.cpp:609-612 | an add at any path succeeds exactly if there is room, is the meant edit if and only if the passes agree, and then whole attributes stay whole |
| CpsObject.WithinHolds | src/cps_api_object.cpp:512-541 | an add stays within the object if the passes agree or the deepest existing container holds whole attributes |
| TlvPath.WideAtLeast | src/cps_api_object.cpp:512-538 | the first pass never finds less depth than the second |
| CpsObject.SpliceForm | src/cps_api_object.cpp:526-541 | the meant edit is the bytes in front with all enclosing lengths grown, the new bytes, and the bytes behind |
| CpsObject.ClobberedAgrees | src/cps_api_object.cpp:504-557 | if the passes agree, what is written is the meant edit |
| CpsObject.Object.Find | src/cps_api_object.cpp:479-495 | the pointer walk finds an attribute if and only if path lookup does, and at exactly its value |
| CpsObject.Object.DeleteFirst | src/cps_api_object.cpp:398-412 | the first attribute of a tag is cut out in place, on any bytes, and found if and only if there is one; it stays or is not a run of whole attributes as before |
| CpsObject.Object.Delete | src/cps_api_object.cpp:414-418 | all attributes of a tag are removed, the others stay in order, stray bytes at the end included |
| CpsObject.Object.Clone | src/cps_api_object.cpp:282-293 | the copy has the key and the attributes of the original, or is unchanged |
| CpsObject.Object.DropRepeated | src/cps_api_object.cpp:295-312 | the source's tags leave the destination, and its zero-length tags leave the source |
| CpsObject.Object.MergeFrom | src/cps_api_object.cpp:314-345 | the in-place merge leaves the merged attributes, also when an object is merged into itself; it succeeds if and only if they fit or the object can grow, and otherwise leaves the destination without what was to be replaced; two objects of whole attributes give one |
| CpsObject.Object.Load | src/cps_api_object.cpp:647-659 | loading a serialised object restores key and attributes; too short an array changes nothing, and an object that cannot be resized is left without attributes |
| CpsObject.Object.Swap | src/cps_api_object.cpp:260-273 | two objects exchange key and attributes |
| CpsObject.Receive | src/cps_api_client_ipc.cpp:206-226 | an object read off a channel serialises to the bytes that came; bytes too few for a key are refused |
| RefCount.Store.Create | src/cps_api_object.cpp:171-188 | a new object has one handle |
| RefCount.Store.Reference | src/cps_api_object.cpp:252-258 | one more handle, one more on the count |
| RefCount.Store.Delete | src/cps_api_object.cpp:190-209 | one handle less; the object is freed exactly when that was the last one and it is on the heap |
| RefCount.Store.Append | src/cps_api_object.cpp:724-733 | the list takes over the caller's handle; no object gives an empty slot |
| RefCount.Store.AppendCopy | src/cps_api_object.cpp:696-722 | the list gets a handle of its own on the object or on a copy; nothing is appended for no object |
| RefCount.Store.MergeSection | src/cps_api_object.cpp:740-762 | the section is appended with a handle for each slot, also when both lists are the same; an empty section is refused |
| RefCount.Store.CloneShallow | src/cps_api_object.cpp:764-789 | a shallow copy has the same slots and a handle of its own for each |
| RefCount.Store.CloneDeep | src/cps_api_object.cpp:764-789 | a deep copy has a new object with the same content and one handle for each slot, and no other object changes |
| RefCount.Store.Clear | src/cps_api_object.cpp:679-687 | the handles of the list are given up, or left to the caller |
| RefCount.Store.Remove | src/cps_api_object.cpp:791-800 | the slot goes and its handle is left to the caller; an index past the end changes nothing |
| RefCount.Store.SetSlot | src/cps_api_object.cpp:817-828 | the list grows as needed, the old handle is given up if asked, and the new one is taken over |
| RefCount.Store.Swap | src/cps_api_object.cpp:260-273 | contents change places and counts do not; the accounting survives if and only if both objects are on the heap or neither is |
| RefCount.MixedSwap | src/cps_api_object.cpp:260-273 | after a swap between a caller's buffer and the heap, the last handle of the one frees foreign memory and that of the other frees nothing |
| RefCount.NothingLeaks | src/cps_api_object.cpp:190-209 | an object without handles was freed exactly once, unless it is in a caller's buffer |
| Wire.FrameReads | src/cps_api_client_ipc.cpp:137-189 | the header of a message reads back, also from a stream that ends behind it |
| Wire.SendResults | src/cps_api_operation_service.cpp:187-209 | the service sends the return code, or the results that are not holes and an end mark |
| Wire.ProcessGet | src/cps_api_client_ipc.cpp:292-322 | the client's receive loop computes `Receive`, with any stream of bytes and any outcome of the waits before each message |
| Wire.LateGet | src/cps_api_client_ipc.cpp:294-303 | a wait that fails before the k-th message returns its code with exactly the objects before it, and leaves the rest unread |
| Wire.HandleCommit | src/cps_api_operation_service.cpp:215-313 | the service's side of a commit on any stream of bytes, malformed ones included |
| Wire.HandleRequest | src/cps_api_operation_service.cpp:374-386 | one request of any kind is read, handed on by its operation and answered |
| Wire.ProcessCommit | src/cps_api_client_ipc.cpp:376-428 | the client's side of a commit on any stream of bytes |
| Wire.GetRoundTrip | src/cps_api_operation_service.cpp:141-212 | the client gets the handler's return code and its non-null results in order, and both sides read exactly what was sent |
| Wire.GetCut | src/cps_api_client_ipc.cpp:294-322 | what the client has of any reply that breaks off: of a success the objects that came whole, of a failure what came of its code |
| Wire.GetCutSucceeds | src/cps_api_client_ipc.cpp:294-322 | a reply that breaks off is reported as a success if and only if a timeout was set, or, once part of a failure code came, if that part is zero |
| Wire.FailureTakenForSuccess | src/cps_api_client_ipc.cpp:308-311 | a failure reported as a success without any timeout |
| Wire.WithCodeLaw | src/non-core/cps_api_object_tools.cpp:258-269 | setting the return code leaves the key and all other attributes, and the code reads back |
| Wire.CommitRoundTrip | src/cps_api_client_ipc.cpp:330-434 | the client gets the object the handler left, the previous object, and the return code that is found in the former, which is the handler's if the attributes are whole; both sides read exactly what was sent |
| Wire.CodeSwallowed | src/non-core/cps_api_object_tools.cpp:258-269 | an attribute header that claims what follows swallows the code: the client reads OK whatever the handler returned |
| Wire.CommitRefused | src/cps_api_operation_service.cpp:287-300 | a handler that leaves no object makes the client fail with what it had |
| Wire.CommitCut | src/cps_api_client_ipc.cpp:383-421 | a commit reply that breaks off anywhere is a failure and leaves the previous object, but the changed object may be exchanged already |
| Wire.RunGet | src/cps_api_client_ipc.cpp:268-327 | client and service run together on a get |
| Wire.RunCommit | src/cps_api_client_ipc.cpp:330-434 | client and service run together on a commit |
| Wire.OkLeavesPrev | src/cps_api_client_ipc.cpp:383-425 | however much of a service's answer arrives, a success brings a previous object |
| Wire.ProcessRevert | src/cps_api_client_ipc.cpp:461-484 | the client's side of a rollback on any stream of bytes |
| Wire.RevertRoundTrip | src/cps_api_operation_service.cpp:315-343 | the client gets the rollback handler's return code, and both sides read exactly what was sent |
| Dispatch.KeyMatches | src/cps_api_key_utils.cpp:57-75 | an inexact match is a prefix match and an exact one equality |
| Dispatch.Service.Insert | src/cps_api_operation_service.cpp:419-440 | a registration goes where the table of all registrations has it |
| Dispatch.RegisteredKeeps | src/cps_api_operation_service.cpp:419-440 | after any registrations, no key stands before a longer one that it is a prefix of, and equal keys stand newest first; none is lost |
| Dispatch.Service.Handle | src/cps_api_operation_service.cpp:268-280 | the dispatch loop takes the first handler that matches and has the function |
| Dispatch.DispatchLongest | src/cps_api_operation_service.cpp:174-185 | a request goes to the longest matching key with the function, the newest on equal keys, and to none only if none matches |
| Transaction.Store | src/cps_api_client_ipc.cpp:402-421 | where the previous object of a change is stored or exchanged, by a service and by the database |
| Transaction.CommitAll | src/cps_api_operation_common.cpp:243-318 | OK if and only if no change failed without the continue flag, as the object then in the list has it; otherwise exactly the changes before the first such failure are reverted, in descending order |
| Transaction.FlagRead | src/cps_api_client_ipc.cpp:383-393 | the flag read after any answer, cut anywhere, is that of the service's object once it arrived whole and the caller's before |
| Transaction.FlagSent | src/cps_api_operation_common.cpp:267-268 | a handler's object of whole attributes is sent back with the flag it has |
| Transaction.FlagLost | src/cps_api_operation_common.cpp:259-270 | a failure that the caller said to skip stops the transaction, since the service sent the object back without the flag |
| Transaction.FlagsHonoured | src/cps_api_operation_common.cpp:243-275 | a transaction stops where the caller's own flags have it stop if and only if each failure it passed had the caller's flag and the one it stopped at had not |
| Transaction.PrevAligned | src/db/cps_api_db_operations.cpp:43-57 | from an empty list, each change rolled back finds its own previous object if and only if every change before the failure left one |
| Transaction.NothingSkipped | src/cps_api_operation_common.cpp:243-318 | with services that answer as they do, and no failure skipped, every change rolled back finds its own previous object |
| Transaction.PrevMisplaced | src/db/cps_api_db_operations.cpp:43-57 | a skipped failure makes a rollback take the object of another change |
| Transaction.RollbackOperExact | src/db/cps_api_db_operations.cpp:59-76 | the operation is inverted for all but DELETE, which stays DELETE |
| DbKey.CopyWithEscape | src/db/cps_api_db_object_key.cpp:26-46 | the escape loop appends the escaped bytes |
| DbKey.CreateEscaped | src/cps_api_operation_common.cpp:424-461 | the second escape routine agrees with the first, needs room for the worst case and changes nothing when it refuses |
| DbKey.UnescapeEscape | src/db/cps_api_db_object_key.cpp:26-46 | escaping loses nothing |
| DbKey.EscapeSize | src/cps_api_operation_common.cpp:424-461 | escaped data is at most twice as long |
| DbKey.EscapedPrefix | src/db/cps_api_db_object_key.cpp:26-46 | escaped text in front of a pattern matches exactly itself followed by what the pattern matches, for all bytes |
| DbKey.InstanceKeyAttrs | src/db/cps_api_db_object_key.cpp:55-78 | the key attributes that are present are collected, and a missing or lone-star attribute is noticed |
| DbKey.AppendAttrs | src/db/cps_api_db_object_key.cpp:81-121 | the builder gives the pattern or the plain key, as guessed or as told |
| DbKey.PatternSelects | src/db/cps_api_db_object_key.cpp:81-130 | the pattern of a query accepts a stored key if and only if the query's key bytes are a prefix of it, or, for values that are patterns, the key is of the class and they match the rest |
| DbKey.JoinInjective | src/db/cps_api_db_object_key.cpp:81-121 | values without the separator are more than any others with the same key, and the only ones of their number |
| DbKey.KeysInjective | src/db/cps_api_db_object_key.cpp:55-121 | an instance without the separator in its values shares its key with no other instance of its class |
| DbKey.KeysExact | src/db/cps_api_db_object_key.cpp:55-121 | an instance is the only one of its class with its key if and only if the class has at most one key attribute or no value holds the separator |
| DbKey.KeysCollide | src/db/cps_api_db_object_key.cpp:81-121 | values that contain the separator can give different instances one key |
| DbKey.JoinPrefix | src/db/cps_api_db_object_key.cpp:81-121 | for values without separators, whose last one does not end like a separator begins unless the other list has no more values: one key is a prefix of another if and only if the values agree, the last one as a prefix |
| DbKey.PrefixExact | src/db/cps_api_db_object_key.cpp:81-121 | this holds against all lists of values without separators if and only if the first list has none either and its last value does not end like one begins |
| DbKey.InstancesSelected | src/db/cps_api_db_object_key.cpp:124-130 | exactly when a query selects, among the instances of its class whose values are free of the separator, those that agree with it attribute by attribute: the attributes given are the first ones and the last does not end like a separator begins, unless it is the last of all; a value that holds separators must hold more than there are attributes |
| DbKey.ClassSelected | src/db/cps_api_db_object_key.cpp:124-130 | a query selects exactly the instances of its class that agree with it, over all instances, if and only if it gives no value, the class has one key attribute, it gives a single empty value, or it gives the first attribute alone, free of the separator and not ending like one begins |
| DbKey.SelectsMore | src/db/cps_api_db_object_key.cpp:81-130 | for every query that gives two values or more, or a value behind a gap, an instance that it selects and that does not agree with it |
| DbKey.HeldTogether | src/db/cps_api_db_object_key.cpp:81-121 | an instance whose first value holds both values asked for and the separator is selected |
| DbKey.GapSelects | src/db/cps_api_db_object_key.cpp:55-78 | a query for the second attribute alone selects by the first |
| DbKey.LooseEnd | src/db/cps_api_db_object_key.cpp:81-121 | a value that ends like a separator begins selects instances with another value |
| DbKey.StarEscaped | src/db/cps_api_db_object_key.cpp:71-116 | a lone star is noticed as a wildcard and selects exactly the values that begin with a star |
| Pipeline.RangeSplit | src/cps_api_vector_utils.cpp:33-44 | the ranges tile the whole, none longer than a positive step; a negative step wraps to one range |
| Pipeline.SendGets | src/db/cps_api_db_pipeline.cpp:102-121 | a window of requests is sent up to the first object without a key; a connection that broke on the way holds the replies but the first ones |
| Pipeline.MergeChunk | src/db/cps_api_db_pipeline.cpp:148-165 | one window of a bulk merge, behind any replies that are already there |
| Pipeline.MergeObjects | src/db/cps_api_db_pipeline.cpp:141-166 | never more requests in flight than the window; unless replies were lost the outcome is `MergeBulk`, and on a connection without strays success means none was |
| Pipeline.MergeShifted | src/db/cps_api_db_pipeline.cpp:141-166 | whatever the window, a bulk merge pairs the i-th object with the i-th reply in the connection, strays first, and leaves as many replies as there were |
| Pipeline.BulkMerges | src/db/cps_api_db_pipeline.cpp:141-166 | whatever the window, a bulk merge succeeds if and only if each object can be merged one at a time, the i-th with the record of its own key, and then leaves no reply |
| Pipeline.MergeStrays | src/db/cps_api_db_pipeline.cpp:154-163 | a merge that meets a missing record has merged the objects before it, and leaves exactly the replies to the rest of the window in the connection |
| Pipeline.NextTakesStray | src/db/cps_api_db_pipeline.cpp:154-163 | the get after such a merge is given the record of another object and leaves its own reply behind |
| Pipeline.GetChunk | src/db/cps_api_db_pipeline.cpp:200-218 | what one window of a bulk get is given for any losses and any replies already there |
| Pipeline.GetObjectList | src/db/cps_api_db_pipeline.cpp:191-225 | success gives what `GetRun` says for the way the windows fared; without losses it succeeds if and only if there is an object and each has a key; the window is respected |
| Pipeline.GetLaw | src/db/cps_api_db_pipeline.cpp:200-218 | whose reply each object is given, for any losses |
| Pipeline.GetEnds | src/db/cps_api_db_pipeline.cpp:200-218 | a bulk get on a connection without strays leaves no reply, whatever was lost |
| Pipeline.FetchedExact | src/db/cps_api_db_pipeline.cpp:200-218 | a bulk get returned the records of its objects if and only if each object was given its own reply or one that says the same, or got none and has no record |
| Pipeline.LostExact | src/db/cps_api_db_pipeline.cpp:200-218 | with all requests sent, the results are right if and only if every object whose reply was lost has no record |
| Pipeline.FineFetched | src/db/cps_api_db_pipeline.cpp:191-225 | with nothing lost the i-th result is the record of the i-th key, whatever the window |
| Pipeline.SuccessWithoutRecord | src/db/cps_api_db_connection.cpp:494-544 | a stored record whose reply is lost, reported as a success with an empty object |
| Pipeline.GetShifted | src/db/cps_api_db_pipeline.cpp:191-225 | with stray replies every result is that of an earlier request, and as many replies are left |
| Pipeline.SendSets | src/db/cps_api_db_pipeline.cpp:79-84 | a window of stores takes effect in order, up to the first object without a key |
| Pipeline.StoreObjects | src/db/cps_api_db_pipeline.cpp:72-98 | bulk storing equals storing one after the other and leaves as many replies as there were; on a connection without strays success means that nothing was lost |
| Pipeline.StoredFetch | src/db/cps_api_db_pipeline.cpp:72-98 | after a bulk store a key holds the last object stored under it, and every other key what it had |
| DbSync.Synchroniser.Mark | src/non-core/cps_api_db_interface_tools.cpp:79-92 | exactly the selected destination records get the mark |
| DbSync.CopyOneStep | src/non-core/cps_api_db_interface_tools.cpp:151-178 | one key is copied correctly on any reply that can be waiting for it, stale ones included |
| DbSync.CopySafe | src/non-core/cps_api_db_interface_tools.cpp:151-178 | on any reply and any destination, copying one key changes that key only, to what the source has there |
| DbSync.SweepOneStep | src/non-core/cps_api_db_interface_tools.cpp:207-222 | one key is swept correctly on any reply that can be waiting, for keys listed twice too |
| DbSync.SweepThins | src/non-core/cps_api_db_interface_tools.cpp:207-222 | on any reply and any destination, sweeping one key only takes selected records away |
| DbSync.Synchroniser.Copy | src/non-core/cps_api_db_interface_tools.cpp:364-412 | for any destination, window and repeated keys the pipelined loop does what `CopyRun` says, and leaves no request unanswered |
| DbSync.Synchroniser.Sweep | src/non-core/cps_api_db_interface_tools.cpp:180-236 | for any destination, window and repeated keys the pipelined loop does what `SweepRun` says, and leaves no request unanswered |
| DbSync.Synchroniser.Sync | src/non-core/cps_api_db_interface_tools.cpp:323-419 | a whole run on any destination does what `Run` says: it changes selected keys only, which then hold what one side had; on full records it leaves under every key what the specification of the run says |
| DbSync.RunSafe | src/non-core/cps_api_db_interface_tools.cpp:323-419 | whatever the destination holds and the scans list, a run changes selected keys only, brings in source keys only, and every object is one that the destination or the source had there |
| DbSync.RunFinal | src/non-core/cps_api_db_interface_tools.cpp:323-419 | on full records every run ends in the final state, whatever the window and the order and repetitions of the scans |
| DbSync.RunEmpties | src/non-core/cps_api_db_interface_tools.cpp:180-236 | without selected source objects every run takes all selected records away, those without an object too |
| DbSync.RunLoses | src/non-core/cps_api_db_interface_tools.cpp:323-419 | for every selected record without an object and every selected source object there are scans that make a run lose a source object, whatever the window |
| DbSync.SyncExact | src/non-core/cps_api_db_interface_tools.cpp:323-419 | with an accepting callback all runs converge if and only if each selected destination record holds an object or the source has no selected object |
| DbSync.PhasesCompose | src/non-core/cps_api_db_interface_tools.cpp:323-419 | the three phases together give the final state |
| DbSync.Converges | src/non-core/cps_api_db_interface_tools.cpp:323-419 | the final state is what is wanted: with an accepting callback the selected destination keys are the source's, each with the source object or one that matched it, no mark is left and the rest is untouched |
| DbSync.RunTwice | src/non-core/cps_api_db_interface_tools.cpp:323-419 | whatever the callback refuses, a second run changes nothing |
| DbSync.FullRecordsNeeded | src/non-core/cps_api_db_interface_tools.cpp:151-178 | a source object survives its own synchronisation if and only if the destination had no record for it or one with an object |
| DbSync.BareRecordTakesAnother | src/non-core/cps_api_db_interface_tools.cpp:207-222 | sweeping a marked record removes it, and another record if and only if the marked one has no object |
| EventQueue.RunKeeps | src/db/cps_api_db_events.cpp:343-419 | in every run, whatever the interleaving, the failures and the trims, the invariant of the queue, the numbering and the leases holds |
| EventQueue.NothingLost | src/db/cps_api_db_events.cpp:277-326 | in every interleaving without a trim the events handled are the oldest accepted ones in order, each sent to its own address or dropped, and all others are queued in order |
| EventQueue.DeliveredOnce | src/db/cps_api_db_events.cpp:204-326 | in every run, trims included, what goes out on connections is what was recorded as sent: each event at most once, in the order accepted, on a connection to its own address, numbered from zero without gaps |
| EventQueue.NumbersConsecutive | src/db/cps_api_db_events.cpp:284-320 | in every run a sent event carries its position among those sent, the same number from every attempt |
| EventQueue.LeasesBalance | src/db/cps_api_db_events.cpp:223-275 | in every run each connection is given back after as many replies as events were sent on it, unless the flush failed, when none is read; and none is out while the thread is idle |
| EventQueue.NoTrim | src/db/cps_api_db_events.cpp:385-411 | with the red line above the maximum no run ever trims |
| EventQueue.TrimReached | src/db/cps_api_db_events.cpp:385-411 | with the red line at or below the maximum some run does |
| EventQueue.LimitExact | src/db/cps_api_db_events.cpp:395-401 | the trim respects its limit only for lists of at most twice that size |
| EventQueue.PublishRefused | src/db/cps_api_db_events.cpp:434-448 | whatever the maximum, some run turns a publisher away |
| EventQueue.DriveIsRun | src/db/cps_api_db_events.cpp:277-326 | processing a list is a run of its entries |
| EventQueue.RoundIsRun | src/db/cps_api_db_events.cpp:343-419 | a round of the thread, with publishers coming in, is a run |
| EventQueue.Publisher.Add | src/db/cps_api_db_events.cpp:423-463 | a publisher's step: refused above the maximum, appended otherwise |
| EventQueue.Publisher.ProcessOne | src/db/cps_api_db_events.cpp:284-320 | one entry: the connection is changed if need be, and the event is stamped, sent and removed, or kept for a retry |
| EventQueue.Publisher.ProcessList | src/db/cps_api_db_events.cpp:277-326 | the loop over a list does exactly the steps of the machine, entry by entry |
| EventQueue.Publisher.PutBack | src/db/cps_api_db_events.cpp:385-411 | what a failed round left goes back to the head |
| EventQueue.Publisher.DrainRound | src/db/cps_api_db_events.cpp:343-419 | one round of the draining thread, with any publishers coming in while it is busy |
| Subscriber.Handle.UpdateConnectionSet | src/db/cps_api_db_event_adapter.cpp:169-176 | exactly the descriptors of the connections are waited on, and the highest is known |
| Subscriber.Handle.DisconnectNode | src/db/cps_api_db_event_adapter.cpp:144-149 | a node loses its connection and all that is remembered of it, and no other node is touched |
| Subscriber.Handle.RegisterOne | src/db/cps_api_db_event_adapter.cpp:291-327 | a late registration keeps the invariant: the group is complete nowhere until its keys are subscribed again |
| Subscriber.Handle.CheckNode | src/db/cps_api_db_event_adapter.cpp:239-265 | a node of a group ends up connected unless something failed at it, and keeps a connection that is sound |
| Subscriber.Handle.CheckConnections | src/db/cps_api_db_event_adapter.cpp:226-283 | every node in scope is connected or failed, nodes out of scope are dropped, and the descriptors waited on are right |
| Subscriber.Handle.ResyncNode | src/db/cps_api_db_event_adapter.cpp:189-220 | all keys of a group are subscribed at the node, or the node loses its connection |
| Subscriber.Handle.ResyncRegs | src/db/cps_api_db_event_adapter.cpp:182-224 | afterwards each connection delivers exactly the keys wanted of its node |
| Subscriber.Handle.Maintain | src/db/cps_api_db_event_adapter.cpp:285-289 | whatever fails in a pass, each connection it leaves delivers exactly the keys wanted of its node, only nodes in scope are connected, all of them but those that failed, and no sound connection is replaced |
| Subscriber.AllDoneExactly | src/db/cps_api_db_event_adapter.cpp:182-224 | if all groups are complete at all connected nodes, then subscriptions and registrations agree |
| Subscriber.SoundAfterAdd | src/db/cps_api_db_event_adapter.cpp:291-327 | a new key keeps the invariant of every node once its group counts as incomplete at the group's nodes |

## Left out

- CpsObject.Object.AddEmbedded: asks that the space the first pass lacks not exceed what is behind the container (`Within`), as it does for all objects whose containers hold whole attributes (`WithinHolds`); otherwise the code writes past the used part of the buffer.
- CpsObject.Object.Add: the same.
- DbSync.Synchroniser.Sync: events raised for changes and synchronising a database with itself are not modelled.
- DbSync.CopyOneStep: for destinations whose selected records hold an object; `CopySafe` holds for all.
- DbSync.SweepOneStep: for marked records that hold an object; `SweepThins` holds for all.
- DbSync.PhasesCompose: for destinations whose selected records hold an object; `SyncExact` says what others do.
- DbSync.Converges: for the same destinations.
- DbSync.RunTwice: for the same destinations.
- DbKey.InstancesSelected: for stored values without separators; `ClassSelected` holds for all.
- DbKey.JoinPrefix: for values without separators; `PrefixExact` says for which lists that is needed.
- EventQueue.NothingLost: for runs that never trim; `NoTrim` and `TrimReached` say for which limits that is all of them.
- Pipeline.MergeObjects: nothing is said about the list when replies were lost, which without strays is a failure.
- Subscriber.Handle.RegisterOne: the filter that a registration may carry is not modelled.
- Subscriber.Handle.Maintain: the nodes of a group do not change; the delivery of events is not modelled.
- Reconciling a database with a list of objects: the same engine as the synchronisation, with a list for a source.
- Matching an object against a filter, which is a parameter of the synchronisation; the name service; node groups and their loading.
- Bulk operations driven by a walk over keys, and bulk deletes: the same windows with other requests.
- Sockets, the wait before the reply to a commit, reconnecting, logging, statistics and running out of memory.
