# Verified core of the dart:io native runtime

This project models, in Dafny 4.11, the parts of the `dart:io` native runtime (`runtime/bin` of the Dart
SDK) that are state and arithmetic once the operating system is abstracted, and proves what they promise.
System calls are functions, parameters or nondeterministic answers; everything else is the runtime's own logic.

| part | files |
|---|---|
| Recursive directory listing in batches, over one shared path buffer | `PathBuffer`, `ListingSpec`, `ListingFrames`, `DirectoryListing`, `ListingProperties`, `ListingMembers` |
| Recursive deletion | `DeletionSpec`, `DeletionAnswers`, `RecursiveDelete` |
| Ports, tokens and the circular list of readers | `CircularLinkedList`, `ReaderQueue`, `DescriptorInfo`, `Fairness` |
| The event handler of Linux: epoll, sockets, messages, whole runs | `Descriptors`, `Polling`, `Ledger`, `EventHandlerState`, `EventHandlerSteps`, `EventHandlerEffects`, `EventHandlerRuns`, `EventHandlerSafety`, `EventHandlerBooks`, `InterruptPipe`, `EventHandlerRounds`, `EventHandlerTimers`, `EventHandler` |
| Timers: the priority queue and the timer descriptor | `HeapSpec`, `PriorityQueue`, `Timers` |
| Edge-triggered events on Fuchsia | `EdgeTrigger` |
| Lexical path cleaning and percent-decoding | `LexicalPath`, `CleanUnixPath`, `UriDecoder` |
| Loading ELF segments from memory | `ElfSpec`, `ElfLoader`, `LoadedElf` |
| Shared by several | `Options`, `Words` |

Code that updates fields, buffers or linked structures in place is a class or a method with loops; its contract
equates the new state with a specification function of the old one, and the theorems are about that function.

## Where the code falls short of what is said of it

Each of these is proved with a concrete input and an exact condition:

- Cancelling a timer can put the queue out of order, because the priority queue only ever moves the item that fills
  the hole down, never up. The order is kept exactly when that item is no smaller than the parent of the hole
  (`HeapSpec.RemoveOrders`). From no timers at all, a short run ends with the timer descriptor armed for a deadline
  of 4 ms while one of 3 ms is pending (`Timers.ArmedTooLate`). No timer ever fires early (`Timers.RunsNeverEarly`).
  A run keeps the queue in order all along exactly when it has no such cancellation (`Timers.OrderedAllAlongIff`).
- A timer with deadline 0 disarms the timer descriptor, and so holds up every other (`Timers.ZeroHoldsUpFive`). With
  the queue in order nothing can expire exactly when some deadline is 0 (`Timers.ZeroDeadlineDisarms`).
- `PathBuffer::Add` accepts a path of exactly `PATH_MAX` characters but shows its last character to nobody
  (`PathBuffers.AcceptedButCut`). An accepted path is read whole exactly when it is shorter (`PathBuffers.PathBuffer.Add`).
  No separator fits behind a path of that length, so that a directory opened under it is left without its path length.
- On Fuchsia a `Write` lies between any two out events that are let through, but not always between their posts
  (`EdgeTrigger.WriteBeforePost`, `EdgeTrigger.NextOutPostNeedsWriteIff`).
- Close events on Fuchsia are posted once by packet handling, and once more for every wait that could not be
  registered (`EdgeTrigger.ClosedTwice`, `EdgeTrigger.PostsBounded`).
- The loader fills the part of a segment past its file size with whatever follows in the file; the System V gABI,
  chapter 5, "Program Loading", wants zeros. They agree exactly when the file has zeros there or ends
  (`ElfLoader.ZeroFilledIff`, `ElfLoader.TailComesFromFile`).
- The loader writes to pages it has already protected when segments share a page (`LoadedElfs.SharedPageFaults`).
  It never does exactly when, of the segments that share a page, all but the last are writable
  (`ElfLoader.WritesAllowedIff`, `LoadedElfs.LoadedIff`).
- `CleanUnixPath` stores past the end of an output of fewer than two bytes for a rooted path
  (`CleanUnixPathLoop.RootOverruns`). It overruns exactly the outputs that are not `Accommodates`
  (`CleanUnixPathLoop.CleanUnixPath`).
- A text decoded by `UriDecoder` is read back whole by a C caller exactly when the URI has no escape for NUL
  (`UriDecoding.TextReadWhole`, `UriDecoding.NulInTheMiddle`).

## Model

| member | source | states |
|---|---|---|
| `PathBuffers.PathBuffer.Add` | runtime/bin/directory_linux.cc:56-68 | accepts a name exactly when the joined path has at most `PATH_MAX` characters; the path before it is kept in every case; an accepted path is read whole if and only if it is shorter than `PATH_MAX`, and otherwise less one character |
| `PathBuffers.PathBuffer.Reset` | runtime/bin/directory_linux.cc:70-73 | a shorter path still kept in the buffer is the one read afterwards |
| `PathBuffers.PathBuffer.AsString` | runtime/bin/directory_linux.cc:43-45 | the characters read, up to the terminator, are the path |
| `PathBuffers.AcceptedButCut` | runtime/bin/directory_linux.cc:56-68 | a path of `PATH_MAX` characters that is accepted, read without its last character, and followed by no separator |
| `ListingSpec.DescentDecreases` | runtime/bin/directory_linux.cc:161-192 | going down into a directory uses up a link not yet on the chain, or keeps the chain and goes physically deeper: the listing ends although links form cycles |
| `ListingFrames.OpenStep` | runtime/bin/directory_linux.cc:88-114 | opening a directory reports one error and finishes, or leaves exactly the same items to report |
| `ListingFrames.ReadStep` | runtime/bin/directory_linux.cc:122-207 | reading an entry reports it first and then what is below it; dots change nothing |
| `ListingFrames.EndStep` | runtime/bin/directory_linux.cc:122-221 | the end of a stream, a failed read and a path that does not fit each finish the directory in place |
| `ListingFrames.DoneStep` | runtime/bin/directory_linux.cc:84-86 | a finished directory reports that it is done and nothing else |
| `DirectoryListings.DirectoryListingEntry.constructor` | runtime/bin/directory.h:65-66 | a new entry is unopened, not done and carries no link |
| `DirectoryListings.DirectoryListingEntry.ResetLink` | runtime/bin/directory_linux.cc:232-240 | frees exactly the links this entry allocated, which were allocated; afterwards it shares its parent's chain |
| `DirectoryListings.DirectoryListingEntry.AddLink` | runtime/bin/directory_linux.cc:186 | allocates one node, with an identity that was not on the chain |
| `DirectoryListings.DirectoryListingEntry.TypeOfEntry` | runtime/bin/directory_linux.cc:128-213 | the type reported and the identities added to the chain are those of the specification, for every entry type; where the types of `readdir` are true, it is a directory, a link or an error exactly as `lstat` and, for a link that is followed, `stat` say |
| `DirectoryListings.DirectoryListingEntry.TypeByStat` | runtime/bin/directory_linux.cc:147-207 | links are followed unless they are on the chain or broken, and are then reported as links |
| `DirectoryListings.DirectoryListingEntry.Open` | runtime/bin/directory_linux.cc:88-114 | the stream of the directory is opened and its own path stays in the buffer, or the entry is done and the error path is shown |
| `DirectoryListings.DirectoryListingEntry.Rewind` | runtime/bin/directory_linux.cc:115-117 | the buffer shows the directory's own path again and its link is freed |
| `DirectoryListings.DirectoryListingEntry.ReadEntry` | runtime/bin/directory_linux.cc:121-222 | one entry read from the stream is reported as the specification says, with its full path in the buffer |
| `DirectoryListings.DirectoryListingEntry.Next` | runtime/bin/directory_linux.cc:83-222 | each step reports the next item of the recursive listing of this directory, and the rest of the listing is what is left |
| `DirectoryListings.DirectoryListing.constructor` | runtime/bin/directory.h:93-106 | a new listing has the whole listing still to report; it is in error exactly when the directory's path does not fit |
| `DirectoryListings.DirectoryListing.Scan` | runtime/bin/directory_linux.cc:163-172 | finds an identity exactly when it is on the active chain; only allocated nodes are looked at |
| `DirectoryListings.DirectoryListing.Delete` | runtime/bin/directory_linux.cc:224-240 | only a node that is allocated can be freed, and it is allocated no more |
| `DirectoryListings.DirectoryListing.Push` | runtime/bin/directory.h:116 | what is left to report is what is below the new directory, followed by what was left before |
| `DirectoryListings.DirectoryListing.Pop` | runtime/bin/directory.h:118-123 | the entry below becomes the top, unchanged, with its path and chain; of the allocated nodes exactly those of the popped entry are freed |
| `DirectoryListings.DirectoryListing.PopAll` | runtime/bin/directory.h:127-131 | the stack is empty and no node is allocated |
| `DirectoryListings.DirectoryListing.EveryPathHeld` | runtime/bin/directory_linux.cc:110-116 | at every time every opened directory of the stack finds its own path at the start of the shared buffer |
| `DirectoryListings.DirectoryListing.SetArray` | runtime/bin/directory.h:183-188 | an empty response with room for a whole number of pairs |
| `DirectoryListings.DirectoryListing.Respond` | runtime/bin/directory.cc:447-463 | one item is appended to the response inside its array; there is room for more exactly as answered |
| `DirectoryListings.DirectoryListing.HandleError` | runtime/bin/directory.cc:481-493 | an error with its path takes one pair of the response |
| `DirectoryListings.DirectoryListing.HandleDone` | runtime/bin/directory.cc:477-479 | the end takes one pair of the response |
| `DirectoryListings.DirectoryListing.ListNext` | runtime/bin/directory.cc:584-614 | what was sent and what is left stay the same listing; it goes on exactly when something is left and the array has room; the work left strictly decreases, so the listing ends |
| `DirectoryListings.DirectoryListing.Leave` | runtime/bin/directory.cc:601-608 | leaving a finished directory sends Done exactly when it was the last |
| `DirectoryListings.DirectoryListing.List` | runtime/bin/directory.cc:616-624 | runs until the array is full or nothing is left and loses no item; an invalid path gives one error and Done |
| `DirectoryListings.DirectoryListing.ListNextRequest` | runtime/bin/directory.cc:388-407 | each batch is the next part of the listing, fits its array, is full unless it is the last, and is empty only when nothing was left; with the last one every link is freed |
| `DirectoryListings.ListAll` | runtime/bin/directory.cc:388-407 | for every file system and batch size, the batches joined are the recursive preorder listing, each batch but the last full; the Dart side hears exactly that listing |
| `DirectoryListings.EncodeConcat` | runtime/bin/directory.cc:447-463 | the cells of two runs of items are the cells of the joined run |
| `DirectoryListings.HeardAll` | sdk/lib/io/directory_impl.dart:349-371 | read pair by pair with the codes of the Dart side, the response gives back exactly the items that were sent |
| `ListingProperties.ListingEachOnce` | runtime/bin/directory_linux.cc:83-222 | no entity is reported twice |
| `ListingProperties.ListingEndsOnce` | runtime/bin/directory.cc:601-608 | Done is reported once, at the end |
| `ListingProperties.LoopIsCut` | runtime/bin/directory_linux.cc:161-192 | a link to its own directory is entered once and then reported as a link |
| `ListingMembers.ClassMeans` | runtime/bin/directory_linux.cc:128-213 | with true types, an entry is taken for an error, a link, a file or a directory exactly as the answers of `lstat` and `stat` say, and a directory carries the link that led to it |
| `ListingMembers.ListingWithoutTypes` | runtime/bin/directory_linux.cc:128-213 | types that `readdir` gives, if they are true, change nothing: the listing is the one of the same file system without any |
| `ListingMembers.ListingHolds` | runtime/bin/directory_linux.cc:83-222 | the listing is exactly what the answers of the system call for, in order, each once, and then the end: a place is the position in every directory on the way; each place that yields an item is listed with it and no other is, directories before what is below them and entries as they are read; an entry whose path fits is there as what the system says it is, dots are not, and an error stands exactly where a directory cannot be opened or read, an entry cannot be looked at, or a path does not fit |
| `DeletionSpec.OutcomeExact` | runtime/bin/directory_linux.cc:256-368 | deletion succeeds if and only if the root of the tree is gone, if and only if exactly the tree is gone |
| `DeletionSpec.TreeFrame` | runtime/bin/directory_linux.cc:287-361 | whether a subtree can be deleted does not depend on what was deleted beside it |
| `DeletionAnswers.DeletableIff` | runtime/bin/directory_linux.cc:256-368 | a tree can be deleted if and only if it is there and, at every node of it, no call that is needed is refused, the directory can be read to the end and the path fits |
| `DeletionAnswers.EntryIff` | runtime/bin/directory_linux.cc:313-356 | an entry, of whatever type, can be deleted if and only if the same holds at every node that it stands for |
| `RecursiveDeletion.DeleteFile` | runtime/bin/directory_linux.cc:244-247 | removes the one node, or nothing and fails; the caller's path stays in the buffer |
| `RecursiveDeletion.DeleteDir` | runtime/bin/directory_linux.cc:249-254 | dots are skipped with success; otherwise the whole subtree is deleted, or only nodes inside it and the answer is failure |
| `RecursiveDeletion.DeleteEntry` | runtime/bin/directory_linux.cc:313-356 | deletes what the entry stands for, whatever type readdir gives for it, and succeeds exactly when that can be deleted, which `DeletionAnswers.EntryIff` says of its nodes |
| `RecursiveDeletion.DeleteRecursively` | runtime/bin/directory_linux.cc:256-368 | success if and only if the root is there and at every node of the tree everything needed is granted and the path fits; then exactly the subtree is gone; on failure only nodes inside are gone and its root stays; links are removed, never opened; the caller's path is intact |
| `RecursiveDeletion.DeleteFolder` | runtime/bin/directory_linux.cc:267-368 | the same for a directory: its entries one after the other, then itself |
| `RecursiveDeletion.FinishFolder` | runtime/bin/directory_linux.cc:298-312 | with all entries gone the directory goes, unless reading, closing or removing it fails |
| `RecursiveDeletion.Delete` | runtime/bin/directory_linux.cc:484-490 | recursive deletion from a path name, with the same condition and the same outcome |
| `CircularLists.CircularLinkedList.Add` | runtime/bin/eventhandler.h:120-136 | the ring stays a ring and its contents, from the head, get the item at the end |
| `CircularLists.CircularLinkedList.RemoveHead` | runtime/bin/eventhandler.h:138-153 | the ring stays a ring and loses its first item |
| `CircularLists.CircularLinkedList.Remove` | runtime/bin/eventhandler.h:155-183 | the ring stays a ring and loses the first occurrence of the item, keeping the order of the others |
| `CircularLists.CircularLinkedList.RemoveAll` | runtime/bin/eventhandler.h:185-189 | every item is cleared once, in order, and the ring is empty |
| `CircularLists.CircularLinkedList.Rotate` | runtime/bin/eventhandler.h:195-200 | the first item becomes the last |
| `ReaderQueue.SetPortKeeps` | runtime/bin/eventhandler.h:401-453 | the list of readers still holds each port that reads and has tokens, once, and no other |
| `ReaderQueue.RemovePortKeeps` | runtime/bin/eventhandler.h:455-477 | the same after a port is removed |
| `ReaderQueue.ReturnTokensKeeps` | runtime/bin/eventhandler.h:538-553 | the same after tokens are returned |
| `ReaderQueue.NotifyNextKeeps` | runtime/bin/eventhandler.h:491-513 | the same after the next port is notified |
| `ReaderQueue.NotifyAllKeeps` | runtime/bin/eventhandler.h:515-536 | the same after all ports are notified |
| `ReaderQueue.MaskIsUnion` | runtime/bin/eventhandler.h:248-250 | the mask asks for input if and only if some port reads and has tokens |
| `DescriptorInfos.DescriptorInfoMultiple.constructor` | runtime/bin/eventhandler.h:392-395 | no ports and no readers |
| `DescriptorInfos.DescriptorInfoMultiple.Mask` | runtime/bin/eventhandler.h:555-560 | asks for input if and only if the queue of readers is not empty |
| `DescriptorInfos.DescriptorInfoMultiple.SetPortAndMask` | runtime/bin/eventhandler.h:401-453 | ports, tokens and the order of readers change as in the queue of readers; the linked list stays valid |
| `DescriptorInfos.DescriptorInfoMultiple.RemovePort` | runtime/bin/eventhandler.h:455-477 | likewise for removing a port; an unknown port changes nothing |
| `DescriptorInfos.DescriptorInfoMultiple.RemoveAllPorts` | runtime/bin/eventhandler.h:479-489 | every entry is freed once, in the order of the map, and nothing is left |
| `DescriptorInfos.DescriptorInfoMultiple.NextNotifyDartPort` | runtime/bin/eventhandler.h:491-513 | the first reader is picked, spends a token and goes to the end, or leaves if it has no tokens left; 0 when there is none |
| `DescriptorInfos.DescriptorInfoMultiple.NotifyAllDartPorts` | runtime/bin/eventhandler.h:515-536 | every port gets one notification and spends a token; those left without tokens stop being readers, the others keep their order |
| `DescriptorInfos.DescriptorInfoMultiple.ReturnTokens` | runtime/bin/eventhandler.h:538-553 | the port gets its tokens and becomes the last reader if it was waiting for them |
| `DescriptorInfos.TryDispatchingPendingAccepts` | runtime/bin/eventhandler_win.cc:1191-1202 | the accepts that are queued go to the readers in turn |
| `Fairness.ReadersTakeTurns` | runtime/bin/eventhandler.h:491-513 | two ports that stay ready are notified in strict alternation, whatever the others do |
| `Fairness.LatecomerWaits` | runtime/bin/eventhandler.h:401-553 | a port that becomes ready is not notified before every port that was ready has been notified or has stopped being ready |
| `Fairness.TokensUntouched` | runtime/bin/eventhandler.h:491-553 | where tokens are disabled no operation changes any |
| `Fairness.DispatchedAt` | runtime/bin/eventhandler_win.cc:1191-1202 | the i-th of n queued accepts goes to the reader at position i modulo the number of readers |
| `Fairness.DispatchIsEven` | runtime/bin/eventhandler_win.cc:1191-1202 | of n queued accepts each of m readers gets n/m rounded down, and the first n mod m readers one more |
| `Descriptors.SetPortAndMaskSound` | runtime/bin/eventhandler.h:283-287 | registering adds exactly that port, changes no tokens, and the events asked for are those of the mask while there are tokens |
| `Descriptors.RemovePortSound` | runtime/bin/eventhandler.h:289-295 | deregistering removes exactly that port and changes no tokens of others |
| `Descriptors.ReturnTokensSound` | runtime/bin/eventhandler.h:325-331 | only the tokens of that port grow, by the count |
| `Descriptors.NextPortReady` | runtime/bin/eventhandler.h:302-309 | a descriptor with a mask has a registered port to notify, not 0, with tokens left |
| `Descriptors.NotifyNextSound` | runtime/bin/eventhandler.h:302-309 | exactly the port picked spends one token |
| `Descriptors.NotifyAllSound` | runtime/bin/eventhandler.h:311-323 | every registered port spends one token |
| `Descriptors.NoPortsNoMask` | runtime/bin/eventhandler.h:333-338 | without ports there is no mask |
| `Ledger.RegisterOk` | runtime/bin/eventhandler_linux.cc:268-275 | a new registration opens an account that balances and changes no other |
| `Ledger.GiveBackOk` | runtime/bin/eventhandler_linux.cc:263-267 | returned tokens are booked to the port's account, which still balances |
| `Ledger.NotifyOk` | runtime/bin/eventhandler_linux.cc:372-376 | a notification goes to a registered port with tokens and is booked; every account still balances |
| `Ledger.BroadcastOk` | runtime/bin/eventhandler_linux.cc:369-371 | a broadcast is booked to every account; all still balance |
| `EventHandlerState.UpdateEpollKeeps` | runtime/bin/eventhandler_linux.cc:137-149 | after any change of a descriptor, the update makes epoll show exactly its new mask, unless the addition fails, which is broadcast; other descriptors stay as they are |
| `EventHandlerSteps.PerformKeeps` | runtime/bin/eventhandler_linux.cc:212-278 | every command on an open socket keeps epoll, accounts, owners and sharing of descriptors intact, and returned tokens never exceed what was sent |
| `EventHandlerSteps.CloseEntry` | runtime/bin/eventhandler_linux.cc:228-261 | when the last socket of a descriptor closes, no port is left and the mask is zero, as the source asserts |
| `EventHandlerEffects.MaskTakesEffect` | runtime/bin/eventhandler_linux.cc:268-275 | after a mask is set, whether the addition to epoll succeeds or not, the port is registered for exactly those events; epoll watches the descriptor if and only if the addition succeeds, or nothing had to be added and it did before |
| `EventHandlerEffects.ReturnTakesEffect` | runtime/bin/eventhandler_linux.cc:263-267 | tokens returned are tokens gained by the port, which is always registered, less one when a failed addition is posted to it |
| `EventHandlerEffects.CloseTakesEffect` | runtime/bin/eventhandler_linux.cc:222-262 | after a close the socket has no descriptor and its port no registration; the descriptor is gone if and only if no other socket listens on it; what is posted is that the socket is destroyed, and nothing else |
| `EventHandlerEffects.MessageEntry` | runtime/bin/eventhandler_linux.cc:207-278 | a command changes the entry of its own descriptor, as the command says, and no other; a failed addition is paid for by every port of it |
| `EventHandlerEffects.CommandBooks` | runtime/bin/eventhandler_linux.cc:207-278 | what a command posts and hands back is what it adds to every account |
| `EventHandlerEffects.MessagePostingTold` | runtime/bin/eventhandler_linux.cc:52-70 | for a message a destroyed event is posted if and only if it closes an open socket, a close event to every port if and only if an addition that would have changed epoll failed, and nothing else |
| `EventHandlerSteps.LastReferenceClosed` | runtime/bin/socket.h:116-120 | a socket that loses its last reference is closed, as its destructor asserts |
| `EventHandlerSteps.MessageKeeps` | runtime/bin/eventhandler_linux.cc:194-281 | handling any message keeps every invariant |
| `EventHandlerSteps.MessagePops` | runtime/bin/eventhandler_linux.cc:199-211 | exactly the oldest message leaves the queue |
| `EventHandlerRuns.PostedEventsWanted` | runtime/bin/eventhandler_linux.cc:327-347 | only wanted events, errors and closes are posted; with an error, exactly the error if input comes with it and nothing otherwise; without one, every reported event |
| `EventHandlerRuns.PostingTold` | runtime/bin/eventhandler_linux.cc:327-377 | an error goes to every port if and only if it comes with input; nothing is posted if and only if nothing is reported or an error comes without input; otherwise the port whose turn it is gets exactly in for POLLIN, out for POLLOUT and close for a hang-up |
| `EventHandlerRuns.EventLive` | runtime/bin/eventhandler_linux.cc:364-374 | a descriptor that epoll reports exists, and the port picked for it is not 0 and has tokens |
| `EventHandlerRuns.EventKeeps` | runtime/bin/eventhandler_linux.cc:364-377 | an event takes one token from exactly the ports it is posted to and none from others, never needs an addition to epoll, keeps every invariant and leaves other descriptors alone; what it tells them is stated by `EventHandlerRuns.PostingTold` |
| `EventHandlerRuns.SendKeeps` | runtime/bin/eventhandler.cc:79-102 | sending a message, which retains the socket first, keeps every invariant |
| `EventHandlerRuns.FinalizeKeeps` | runtime/bin/socket.cc:1405-1421 | a finalizer hands its reference over to a close message and keeps every invariant |
| `EventHandlerRuns.CreateKeeps` | runtime/bin/socket.cc:130-140 | a new socket, alone on its descriptor or sharing it to listen, keeps every invariant |
| `EventHandlerSafety.NextKeeps` | runtime/bin/eventhandler_linux.cc:349-385 | every step of the handler and of the Dart side keeps every invariant, the events of the current batch included |
| `EventHandlerSafety.After` | runtime/bin/eventhandler_linux.cc:387-409 | every configuration reached by a run, whatever the interleaving of the handler with the Dart side, satisfies every invariant |
| `EventHandlerSafety.EpollShowsInterest` | runtime/bin/eventhandler_linux.cc:33-70 | in every run a descriptor is in epoll exactly when its mask is not zero, for in and out events exactly as in that mask, unless its last addition failed; edge-triggered exactly if its sockets do not listen |
| `EventHandlerSafety.EventsFindTheirPort` | runtime/bin/eventhandler_linux.cc:349-385 | in every run every event of a batch names a live descriptor and a port with tokens |
| `EventHandlerSafety.MessagesKeepSockets` | runtime/bin/eventhandler_linux.cc:207-211 | in every run the socket of every message under way exists, with one reference for each such message and one for the Dart object |
| `EventHandlerSafety.AbandonedSocketsClose` | runtime/bin/socket.cc:1405-1421 | in every run an open socket without a Dart object has a close message under way |
| `EventHandlerSafety.MessagesInOrder` | runtime/bin/eventhandler_linux.cc:194-200 | over every run the messages handled, followed by those waiting, are the messages sent, in the same order |
| `EventHandlerSafety.MessagesMustWait` | runtime/bin/eventhandler_linux.cc:380-384 | a reachable state in which handling a message before the rest of the batch would delete a descriptor that an event of the batch names |
| `EventHandlerBooks.StepBooks` | runtime/bin/eventhandler_linux.cc:194-385 | every step adds to the account of a port exactly what it posts to the port and the tokens in the message it handles |
| `EventHandlerBooks.AccountsAreTallies` | runtime/bin/eventhandler_linux.cc:194-385 | over every run the account of a port is the number of posts to it, and of tokens in its messages, counted from the run since its registration |
| `EventHandlerBooks.TokensConserved` | runtime/bin/eventhandler.h:302-338 | in every run the tokens of a port are 16 on its own descriptor and 4 on a shared one, less the posts to it, plus the tokens in its handled messages, all counted from the run; at most 16 posts are unanswered on a descriptor of one port, and at most 4 beside the posts to every port on a shared one |
| `EventHandlers.EventHandlerImplementation.AddToEpollInstance` | runtime/bin/eventhandler_linux.cc:52-70 | the descriptor is in epoll with its interest, or the failure is posted to every port |
| `EventHandlers.EventHandlerImplementation.UpdateEpollInstance` | runtime/bin/eventhandler_linux.cc:137-149 | refines the update of the state, and posts if and only if an addition was needed and failed; a listening descriptor never changes from one mask to another |
| `EventHandlers.EventHandlerImplementation.GetDescriptorInfo` | runtime/bin/eventhandler_linux.cc:151-171 | the entry of the descriptor, new if there was none |
| `EventHandlers.EventHandlerImplementation.CloseCommand` | runtime/bin/eventhandler_linux.cc:222-262 | refines closing a socket; only the destroyed event is posted |
| `EventHandlers.EventHandlerImplementation.OtherCommand` | runtime/bin/eventhandler_linux.cc:212-278 | refines the other commands, with what a failed addition posts; tokens are only ever returned to a registered port |
| `EventHandlers.EventHandlerImplementation.HandleInterruptFd` | runtime/bin/eventhandler_linux.cc:194-281 | one read takes whole messages off the pipe, at most 24; what it does, while the Dart side goes on sending, is a run that handles exactly those in order; timers and the shutdown flag follow them, and the posts are those of the run |
| `EventHandlers.EventHandlerImplementation.HandleWord` | runtime/bin/eventhandler_linux.cc:200-278 | a word read off the pipe, decoded as the source does, is handled as the message at the head of the queue |
| `EventHandlers.EventHandlerImplementation.HandleSocketEvent` | runtime/bin/eventhandler_linux.cc:364-377 | refines the handling of one event and posts, by the signals reported, to the port whose turn it is, or to all on an error |
| `EventHandlers.EventHandlerImplementation.HandleEvents` | runtime/bin/eventhandler_linux.cc:349-385 | a round is a run from one reachable configuration to another: the events in order, then the messages if the interrupt pipe was among them, whatever the Dart side does before each; all posts are those of the run, every socket event has its post, and every timer taken out of the queue is posted |
| `EventHandlers.EventHandlerImplementation.HandleBatch` | runtime/bin/eventhandler_linux.cc:351-379 | the socket events of a batch are handled in order, whatever the Dart side does before each, and each has its post by its signals; the timers in the queue before are those in it afterwards and those posted, as many as there were expirations |
| `EventHandlers.EventHandlerImplementation.constructor` | runtime/bin/eventhandler_linux.cc:72-125 | the handler starts in the initial configuration, with nothing in the pipe and no timers |
| `EventHandlers.EventHandlerImplementation.SendData` | runtime/bin/eventhandler.cc:79-102 | the socket is retained and its message, spelled in three words, is the last in the pipe |
| `EventHandlers.EventHandlerImplementation.FinalizeSocket` | runtime/bin/socket.cc:1405-1421 | a close message is the last in the pipe and has the reference of the Dart object |
| `EventHandlers.EventHandlerImplementation.Interfere` | runtime/bin/eventhandler.cc:79-102 | any steps of the Dart side, between two of the handler, are a run that only adds messages; the words in the pipe still spell the messages under way |
| `EventHandlerRounds.DidJoin` | runtime/bin/eventhandler_linux.cc:349-385 | runs that follow each other are one run, with the posts of both |
| `EventHandlerRounds.RunTold` | runtime/bin/eventhandler_linux.cc:194-385 | in every run the posts of every step say what its signals, or its message, call for, in the order of the steps |
| `EventHandlerRounds.SpelledHead` | runtime/bin/eventhandler_linux.cc:196-211 | in every configuration that satisfies the invariants the oldest word is decoded to the oldest message, and its type flag says whether the socket listens |
| `EventHandlerRounds.SpelledRest` | runtime/bin/eventhandler_linux.cc:196-211 | handling a message leaves the other words spelling the other messages |
| `EventHandlerRounds.SpelledSent` | runtime/bin/eventhandler.cc:79-102 | so does anything the Dart side sends |
| `EventHandlers.EventHandlerImplementation.UpdateTimerFd` | runtime/bin/eventhandler_linux.cc:283-293 | the timer descriptor gets the seconds and nanoseconds of the root of the queue, or is disarmed |
| `EventHandlers.EventHandlerImplementation.UpdateTimeout` | runtime/bin/eventhandler_linux.cc:200-202 | refines the update of a timeout and of the timer descriptor |
| `EventHandlers.EventHandlerImplementation.HandleTimer` | runtime/bin/eventhandler_linux.cc:355-363 | posts the port at the root of the queue, removes it and arms the descriptor anew |
| `EventHandlerTimers.FiredConserves` | runtime/bin/eventhandler_linux.cc:355-363 | a batch loses no timer: those queued before are those queued afterwards and those posted |
| `EventHandlerTimers.MessagesAreUpdates` | runtime/bin/eventhandler_linux.cc:200-202 | what the messages of a read do to the timers is the run of their updates |
| `EventHandlerTimers.RoundIsRun` | runtime/bin/eventhandler_linux.cc:349-385 | a round of the handler is a run of the timer queue; its posts are the posts of that run, none before the deadline that its port had |
| `InterruptPipes.CommandRoundTrip` | runtime/bin/eventhandler.h:21-61 | a command and the type flag are read out of the data word as they were put in, if and only if a count of tokens stays below the command bits |
| `InterruptPipes.OrDisjoint` | sdk/lib/_internal/vm/bin/socket_patch.dart:1530-1531 | bits that do not overlap add up |
| `InterruptPipes.SpellingRoundTrip` | runtime/bin/eventhandler_linux.cc:200-213 | every message of a socket, of a timer or of the shutdown is read out of its three words as it was put in |
| `InterruptPipes.MessageRoundTrip` | runtime/bin/eventhandler.h:100-107 | a message of 24 bytes decodes to what was encoded |
| `InterruptPipes.InterruptPipe.WakeupHandler` | runtime/bin/eventhandler_linux.cc:173-192 | a write appends one whole message |
| `InterruptPipes.InterruptPipe.Read` | runtime/bin/eventhandler_linux.cc:194-199 | a read yields the oldest messages whole, at most 24, and leaves the others |
| `HeapSpec.InsertItems` | runtime/platform/priority_queue.h:49-60 | insertion adds the item and loses none |
| `HeapSpec.RemoveItems` | runtime/platform/priority_queue.h:150-166 | removal takes out exactly the item at the position |
| `HeapSpec.ChangeItems` | runtime/platform/priority_queue.h:96-120 | a change of priority replaces exactly that item |
| `HeapSpec.MinimumIsLeast` | runtime/platform/priority_queue.h:62-68 | in an ordered heap the root is least |
| `HeapSpec.UpOrders` | runtime/platform/priority_queue.h:168-178 | bubbling up restores the order when one item may be too small |
| `HeapSpec.DownOrders` | runtime/platform/priority_queue.h:180-208 | bubbling down restores the order when one item may be too large |
| `HeapSpec.InsertOrders` | runtime/platform/priority_queue.h:49-60 | insertion keeps the order |
| `HeapSpec.ChangeOrders` | runtime/platform/priority_queue.h:96-120 | a change of priority keeps the order |
| `HeapSpec.RemoveOrders` | runtime/platform/priority_queue.h:150-166 | removal keeps the order if and only if the hole is the root or the last position, or the last item is no smaller than the parent of the hole |
| `HeapSpec.RemovalCanBreakOrder` | runtime/platform/priority_queue.h:79-89 | an ordered heap of seven items that a removal puts out of order |
| `PriorityQueues.PriorityQueue.constructor` | runtime/platform/priority_queue.h:34-40 | an empty queue |
| `PriorityQueues.PriorityQueue.BubbleUp` | runtime/platform/priority_queue.h:168-178 | the array becomes what bubbling up makes of it, and the map still finds every value |
| `PriorityQueues.PriorityQueue.BubbleDown` | runtime/platform/priority_queue.h:180-208 | the same for bubbling down |
| `PriorityQueues.PriorityQueue.Insert` | runtime/platform/priority_queue.h:49-60 | the item is inserted, in a larger array if need be |
| `PriorityQueues.PriorityQueue.Minimum` | runtime/platform/priority_queue.h:65-68 | the root; least of all if the heap is ordered |
| `PriorityQueues.PriorityQueue.RemoveAt` | runtime/platform/priority_queue.h:150-166 | the item at the position is removed; the array never becomes too small |
| `PriorityQueues.PriorityQueue.RemoveMinimum` | runtime/platform/priority_queue.h:71-74 | the root is removed and the order kept |
| `PriorityQueues.PriorityQueue.RemoveByValue` | runtime/platform/priority_queue.h:79-89 | the value is removed if present; the order is kept if and only if the condition on the last item holds |
| `PriorityQueues.PriorityQueue.InsertOrChangePriority` | runtime/platform/priority_queue.h:96-120 | a new value is inserted, a known one gets its new priority; the order is kept |
| `Timers.UpdateRepresents` | runtime/bin/eventhandler.h:86-92 | after an update the queue holds exactly the current deadline of every port; a negative one cancels |
| `Timers.ArmedForRoot` | runtime/bin/eventhandler_linux.cc:283-293 | the timer descriptor is armed if and only if the root's deadline is positive, and then for exactly that deadline |
| `Timers.ArmedForLeast` | runtime/bin/eventhandler_linux.cc:283-293 | with the queue in order the root has the least deadline |
| `Timers.NeverEarly` | runtime/bin/eventhandler_linux.cc:355-363 | a port is posted at or after its current deadline, and loses that deadline |
| `Timers.RunsNeverEarly` | runtime/bin/eventhandler_linux.cc:355-363 | the same for every post of every run |
| `Timers.UpdateOrders` | runtime/bin/eventhandler.h:86-92 | an update keeps the queue in order if and only if it is not a cancellation whose last item belongs higher |
| `Timers.RunsArmedForLeast` | runtime/bin/eventhandler_linux.cc:283-293 | in every run without such a cancellation the descriptor is armed for the least deadline |
| `Timers.OrderedAllAlongIff` | runtime/platform/priority_queue.h:79-89 | a run keeps the queue in order after every step if and only if it has no such cancellation |
| `Timers.ZeroDeadlineDisarms` | runtime/bin/eventhandler_linux.cc:283-293 | with timers set and the queue in order, none can ever expire if and only if some deadline is 0 |
| `Timers.ZeroHoldsUpFive` | runtime/bin/eventhandler_linux.cc:283-293 | a run from no timers after which a port with a deadline of 5 ms waits for ever behind one with deadline 0 |
| `Timers.ArmedTooLate` | runtime/platform/priority_queue.h:150-166 | a run from no timers after which the descriptor is armed for 4 ms although a port has a deadline of 3 ms |
| `EdgeTrigger.OutNeedsWrite` | runtime/bin/eventhandler_fuchsia.cc:281-300 | in every interleaving a write lies between two out events let through |
| `EdgeTrigger.CloseOnce` | runtime/bin/eventhandler_fuchsia.cc:345-365 | in every interleaving a close event is let through at most once |
| `EdgeTrigger.InNeedsRead` | runtime/bin/eventhandler_fuchsia.cc:302-343 | after an in event that disabled reads, none is let through before an accept, a draining read or a failing read |
| `EdgeTrigger.FlagsAfter` | runtime/bin/eventhandler_fuchsia.cc:78-147 | read events are on after an action exactly if it is an accept, a failing or a draining read, or they were on and it suppresses none; write events exactly after a write, or if no out event was let through |
| `EdgeTrigger.ShownExactly` | runtime/bin/eventhandler_fuchsia.cc:276-365 | in every run an event is let through if and only if it is reported, enabled at the start or since, and enabled again after every action that suppressed it |
| `EdgeTrigger.AvailableIsUnread` | runtime/bin/eventhandler_fuchsia.cc:84-88 | what counts as available is what the system last said, less what has been read since |
| `EdgeTrigger.ReadEnablesIff` | runtime/bin/eventhandler_fuchsia.cc:84-107 | a read lets in events through again if and only if it fails, or all that the system said is there has been read |
| `EdgeTrigger.WaitedForIsShown` | runtime/bin/eventhandler_fuchsia.cc:169-204 | whatever a handle waits for is let through when it is reported alone |
| `EdgeTrigger.WaitsExactly` | runtime/bin/eventhandler_fuchsia.cc:169-186 | a signal is waited for if and only if its event is wanted, or is a close, and would be let through |
| `EdgeTrigger.PacketReports` | runtime/bin/eventhandler_fuchsia.cc:590-612 | a packet leads to an in, out or close post exactly if its signals report it, without an error, and the handle lets it through |
| `EdgeTrigger.PostsBounded` | runtime/bin/eventhandler_fuchsia.cc:569-615 | in every run close posts are the failed waits and at most one more, and out posts are at most one more than the writes |
| `EdgeTrigger.ClosedTwice` | runtime/bin/eventhandler_fuchsia.cc:569-615 | a run with two close posts, the second for a wait that fails |
| `EdgeTrigger.InPostsNeedRead` | runtime/bin/eventhandler_fuchsia.cc:302-343 | in every run a packet that disables reads leads to at most one in post until an accept, a draining read or a failing read |
| `EdgeTrigger.WriteBeforePost` | runtime/bin/eventhandler_fuchsia.cc:597-614 | a run with two out posts and no write between them |
| `EdgeTrigger.NextOutPostNeedsWriteIff` | runtime/bin/eventhandler_fuchsia.cc:597-614 | after a post, the next out post needs another write if and only if write events are off at that time |
| `EdgeTrigger.IOHandle.constructor` | runtime/bin/eventhandler_fuchsia.h:32-41 | all events are enabled; the number of available bytes is whatever it was |
| `EdgeTrigger.IOHandle.Read` | runtime/bin/eventhandler_fuchsia.cc:78-108 | the new flags and count; reads are enabled afterwards exactly if they were, or the read fails or leaves nothing available |
| `EdgeTrigger.IOHandle.Write` | runtime/bin/eventhandler_fuchsia.cc:110-128 | write events are enabled |
| `EdgeTrigger.IOHandle.Accept` | runtime/bin/eventhandler_fuchsia.cc:130-147 | read events are enabled, whatever the outcome |
| `EdgeTrigger.IOHandle.AvailableBytes` | runtime/bin/eventhandler_fuchsia.cc:149-162 | the count is what the system says, 1 on error |
| `EdgeTrigger.IOHandle.MaskToEpollEvents` | runtime/bin/eventhandler_fuchsia.cc:169-186 | exactly the enabled events of the mask, and a read-close while close events are enabled |
| `EdgeTrigger.IOHandle.ToggleEvents` | runtime/bin/eventhandler_fuchsia.cc:281-365 | the events let through are the enabled ones, and each flag is cleared exactly as the specification says |
| `LexicalPath.CleanStackCanonical` | runtime/bin/file.cc:850-903 | folding the components leaves names, preceded in a relative path by dot-dots only |
| `LexicalPath.RenderReadsBack` | runtime/bin/file.cc:850-903 | a canonical path reads back as the components it was made of |
| `LexicalPath.CleanIsCanonical` | runtime/bin/file.cc:833-904 | cleaning gives a canonical path, and changes nothing if and only if the path is canonical |
| `LexicalPath.CleanIdempotent` | runtime/bin/file.cc:833-904 | cleaning twice is cleaning once |
| `LexicalPath.CleanPreservesMeaning` | runtime/bin/file.cc:833-904 | from every starting directory the cleaned path leads to the same place |
| `LexicalPath.CleanDecidesMeaning` | runtime/bin/file.h:294-297 | two paths clean to the same text if and only if they lead to the same place from everywhere |
| `LexicalPath.CleanNotLonger` | runtime/bin/file.cc:833-904 | the cleaned path is not longer than the path, but for the empty one |
| `LexicalPath.CleanIsShortest` | runtime/bin/file.h:294-297 | no non-empty path of the same meaning is shorter |
| `CleanUnixPathLoop.CleanUnixPath` | runtime/bin/file.cc:833-904 | for every input and output: stores past the end if and only if the output does not accommodate the input; otherwise writes exactly the cleaned path and its terminator, and returns -1 if and only if a non-empty input is at least as long as the output |
| `CleanUnixPathLoop.RootOverruns` | runtime/bin/file.cc:843-904 | the root overruns an output of one byte |
| `UriDecoding.DecodeInvertsEncoding` | runtime/bin/file.cc:1601-1634 | a text is decoded to t if and only if it is one of the percent-encodings of t (section 2.1 of RFC 3986) |
| `UriDecoding.DecodeEncode` | runtime/bin/file.cc:1601-1634 | decoding undoes encoding, whatever bytes are escaped |
| `UriDecoding.DecodeRejects` | runtime/bin/file.cc:1620-1632 | a text is rejected if and only if some percent sign lacks two hexadecimal digits |
| `UriDecoding.OrBit5FoldsCase` | runtime/bin/file.cc:1648-1655 | setting bit 5 recognises exactly the letters of both cases |
| `UriDecoding.HexDigitsExact` | runtime/bin/file.cc:1642-1660 | the value of a digit is its place among the sixteen, in either case, and nothing else has one |
| `UriDecoding.HexCharPairToByte` | runtime/bin/file.cc:1642-1660 | accepts exactly two hexadecimal digits, reads nothing past the terminator, and writes their value |
| `UriDecoding.UriDecoder.constructor` | runtime/bin/file.cc:1601-1634 | the result is null exactly for texts that are rejected, the original when there is nothing to decode, and otherwise a new buffer with the decoded bytes, a C string of that length if and only if the URI has no escape for NUL |
| `UriDecoding.TextReadWhole` | runtime/bin/file.cc:1601-1634 | the decoded text is read back whole as a C string if and only if the URI has no escape for NUL |
| `UriDecoding.DecodesNul` | runtime/bin/file.cc:1619-1632 | the decoded text has a NUL if and only if the URI has an escape for it |
| `UriDecoding.NulInTheMiddle` | runtime/bin/file.cc:1619-1632 | "a%00b" is decoded to three bytes with a NUL between |
| `ElfSpec.Placement` | runtime/bin/elf_loader.cc:399-410 | in pages: where a segment starts, how long its mapping is, and that it starts at the same distance into its page in file and memory |
| `ElfSpec.ReservationHolds` | runtime/bin/elf_loader.cc:371-391 | the memory reserved is whole pages and holds the pages of every segment |
| `ElfSpec.ReservationTight` | runtime/bin/elf_loader.cc:371-391 | nothing is reserved past the pages of the last segment |
| `ElfLoader.SegmentLoaded` | runtime/bin/elf_loader.cc:371-452 | after any number of headers, every byte of every segment placed so far that no later one is mapped over is the byte of the file, or zero past its end |
| `ElfLoader.ImageLoaded` | runtime/bin/elf_loader.cc:371-452 | after the load of segments that share no page, memory holds, for every segment and offset, the byte of the file at that offset |
| `ElfLoader.RestIsZero` | runtime/bin/elf_loader.cc:386-391 | bytes on pages of no segment are zero |
| `ElfLoader.PageProtected` | runtime/bin/elf_loader.cc:412-421 | a page has the protection of the last segment on it |
| `ElfLoader.ProtectionExact` | runtime/bin/elf_loader.cc:412-421 | after the load a page is for execution, for writing or for reading only exactly as the flags of its last segment say |
| `ElfLoader.ExecutableIff` | runtime/bin/elf_loader.cc:412-421 | a page can be executed if and only if the last segment on it is readable and executable |
| `ElfLoader.PageUntouched` | runtime/bin/elf_loader.cc:386-391 | pages of no segment stay writable |
| `ElfLoader.WritesAllowedIff` | runtime/bin/elf_loader.cc:82-128 | every segment is written to pages still writable if and only if, of the segments that share a page, all but the last are writable |
| `ElfLoader.ZeroFilledIff` | runtime/bin/elf_loader.cc:405-410 | the part of a segment past its file size is zero if and only if the file is zero there or ends |
| `ElfLoader.TailComesFromFile` | runtime/bin/elf_loader.cc:405-410 | a file whose segment gets a byte that is not in it |
| `ElfLoader.PieceStartRight` | runtime/bin/elf_loader.cc:511-528 | the address given for a mapped piece is right if and only if the ELF data starts on a page of the file |
| `LoadedElfs.FirstResultLoaded` | runtime/bin/elf_loader.cc:393-449 | all segments are loaded if and only if each is |
| `LoadedElfs.LoadedIff` | runtime/bin/elf_loader.cc:393-449 | a file is loaded if and only if every segment passes the checks and those that share a page with a later one are writable |
| `LoadedElfs.SharedPageFaults` | runtime/bin/elf_loader.cc:393-449 | a file of two segments on one page, each acceptable, at whose second the load faults |
| `LoadedElfs.PowerOfTwoIff` | runtime/bin/elf_loader.cc:383-384 | the check of an alignment accepts exactly the powers of two |
| `LoadedElfs.MemoryMappable.Copy` | runtime/bin/elf_loader.cc:101-108 | bytes of the image, then zeros, are written at the place and nowhere else |
| `LoadedElfs.MemoryMappable.Map` | runtime/bin/elf_loader.cc:82-128 | mapping fails exactly for a position past the image and faults exactly when a page is no longer writable; otherwise the bytes are written and exactly their pages protected |
| `LoadedElfs.LoadedElf.MeasureSegments` | runtime/bin/elf_loader.cc:371-386 | the end of the highest segment, unless some alignment is not a power of two |
| `LoadedElfs.LoadedElf.LoadSegments` | runtime/bin/elf_loader.cc:371-452 | the outcome is that of the first segment that is not loaded, in the order of the checks of the source; on success memory and protection are those specified |
| `LoadedElfs.LoadedElf.LoadSegment` | runtime/bin/elf_loader.cc:393-449 | one segment is checked, placed and protected, or faults |
| `LoadedElfs.MapFilePiece` | runtime/bin/elf_loader.cc:511-528 | with the ELF data on a page of the file the address gives exactly the piece; null exactly when the mapping fails |

## Left out

- The Dart embedding API, native argument marshalling and the request wrappers: plumbing over the operations modelled here.
- The Android, macOS and Windows copies of listing, polling and deletion, which repeat the Linux logic, and the rest of the Windows completion ports, including its queue of accepted sockets: it would only add easy members.
- `Directory::ListStartRequest`, `ListStopRequest` and the synchronous listing: wrappers around the listing modelled here.
- DirectoryListings.ListAll: assumes a file system that does not change meanwhile, with finitely many links and directories nested finitely deep, and that a directory whose path has exactly `PATH_MAX` characters cannot be opened under its cut path.
- ListingMembers.ListingHolds: for file systems whose `readdir` gives the type that `lstat` gives, or none.
- ListingProperties.ListingEachOnce: for trees without cut paths, since cut paths of different entries can be equal.
- RecursiveDeletion.DeleteRecursively: for a tree that nobody else changes and in which no path has exactly `PATH_MAX` characters; a name stands for one node (no hard links to directories).
- EventHandlerBooks.TokensConserved: assumes that receivers return no more tokens than they were sent notifications, always with the port of their socket, and that masks have the shape the source asserts.
- EventHandlerSafety.EpollShowsInterest: the answer of the registry of listening sockets is taken to be whether another open socket has the descriptor.
- EventHandlers.EventHandlerImplementation.HandleEvents: the Dart side acts between any two events and any two messages; the handling of one of them is one step.
- The debug assertions on the shape of posted event masks, the type flags of pipes and signal sockets, and `shutdown` on a descriptor: no state of the handler depends on them.
- PriorityQueues.PriorityQueue.InsertOrChangePriority: the difference of priorities does not overflow, which holds for deadlines on a machine of 64 bits.
- InterruptPipes.InterruptPipe.Read: a read returns all that is in the pipe, up to the size of its buffer.
- EdgeTrigger.PostsBounded: a broadcast to several ports counts as one post; failures of the waits that `Read`, `Write` and `Accept` register are ignored, as the source does.
- LoadedElfs.LoadedElf.LoadSegments: for segments whose sums do not wrap around, which the source does not check; the reservation starts out as zeros, and file mappings, Fuchsia, the headers and the symbol tables are not part of this model.
- LoadedElfs.MapFilePiece: for pieces whose end does not wrap around.
