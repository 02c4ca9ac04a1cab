# Verified model of D-Bus C++

A Dafny model of the parts of the D-Bus C++ binding that carry invariants, with proofs.  `dafny verify
dfyconfig.toml` checks all of it.

- **Request piper** (`Piper`, `PiperInvariant`, `PiperSteps`, `PiperTheorems`, `PiperHistory`, `PiperLifetimes`,
  `RequestPiper`).  The protocol that carries calls from the dispatcher thread to worker threads and replies and signals
  back.  `Piper` is a state machine with one step for each critical section and each unlocked read or write; "byte read, entry not
  popped", "frame read, entry not popped" and "enqueued, continuation not registered" are states of their own.
  `Piper.Reachable` ranges over every interleaving of one dispatcher thread and any number of other threads.
  `RequestPiperObject.RequestPiper` holds the fields of the class beside a reachable state of the machine, and each
  of its methods is shown to take the machine's steps on them.
- **Signatures and types** (`Types`, `SignatureParser`, `TypeNames`).  The generators' recursive-descent compiler from
  signatures to C++ type texts, with its index passed by reference, and `type<T>::sig()` as its inverse.  `TypeNames`
  reads type texts by names of its own.
- **Marshalling** (`Wire`, `Marshal`, `WireForm`, `Extraction`, `Operators`, `Ordering`).  Message bodies as typed
  trees, the stream operators of `types.h` as methods over iterators, the deep copier, and variants.  `WireForm` says
  part by part what is appended, `Extraction` exactly what can be read and what reading makes of it.
- **Generated stubs** (`StubLanguage`, `Overloads`, `StubGenerators`, `StubNames`, `StubClasses`, `StubWitnesses`,
  `StubRuns`, `StubTheorems`).  The generators' loops write the class of a proxy and of an adaptor: members,
  declarations, and stubs as lists of statements.  A class compiles or not by C++'s rules of scope, hiding and
  overloading, for any set of implicit conversions; an interpreter runs its stubs; proxy and adaptor together
  are a call.
- **Pipes** (`Framing`, `EventLoop`: one reader, any number of writers), **pending connections** (`Dispatching`),
  **reference counts** (`RefCount`, `Messages`) and the **XML tree** of the generators (`Xml`,
  `XmlLayout`).

A method with a loop, or that updates fields, is proved against a specification function; the lemmas then say
what the function means.

## Assumptions

- One dispatcher thread.  Writes to pipes succeed and pipes are unbounded.  A lock is the boundary of a step.
- A tag of the service stays allocated until it is returned and no `return_now` on it is under way, and stands for
  one outstanding call at a time.  `PiperLifetimes.FreedDuringReturn` is what happens otherwise.
- The write of the four header bytes of a frame is one system call, as `src/pipe.cpp:113-116` itself relies on.
- Names in an interface are C++ identifiers other than keywords, macros, and names of types and namespaces; every
  signature in it is one complete type; a method has no annotation but NoReply, and an interface no properties.
- Text is a sequence of characters with NUL among them; strings that are no valid UTF-8, and paths and
  signatures that libdbus would reject, do not occur.

## Where the code does not meet its promise

The code is modelled as it is; each item names the lemma with the exact condition or, where there is none to give,
says what the model does.

- Reading into a vector appends and reading into a map merges (`include/dbus-c++/types.h:550-611`), so a value
  replaces what the destination held exactly when the destination is receptive (`Marshal.AbsorbIff`); a proxy
  with several results reads into its caller's variables (`StubTheorems.CallTransparentIff`).
  `Marshal.AppendsToVector` is the input.
- Text is handed over as a C string (`include/dbus-c++/types.h:374-390`), so it is cut at its first NUL
  (`Marshal.ArrivesWholeIff`; `Marshal.SurvivesIff` for any destination).
- Not every interface gives classes that compile.  `StubClasses.ProxyCompilesIff` and
  `StubClasses.AdaptorCompilesIff` say which do, in terms of its names and declarations; the theorems on calls and
  signals are exact with them.
  - An argument called `call`, `wi`, `ret`, `ri`, `argout`, `invoke_method` or `invoke_method_noreply`, where the
    method's stub needs that name; a signal or its argument called `sig` or `ri`, or an argument like its signal;
    a method called like a variable of its handler; a member called like the class.
  - A member that hides a function of the library which a stub of the class calls: `invoke_method`
    (`StubWitnesses.HidesInvoke`), `invoke_method_noreply` (`StubWitnesses.HidesInvokeNoReply`) or `emit_signal`
    (`StubWitnesses.HidesEmit`).
  - A given name that is the numbered name of an argument without one.  The declaration of a signal's handler
    numbers with another prefix than its stub (`StubWitnesses.RepeatsNumber`).
  - A repeated name, even where the stub has names of its own (`StubWitnesses.RepeatsName`), and in an adaptor two
    members of one name, since `introspect()` declares an array for each.
  - In a proxy members of one name overload each other.  A method named like a signal may make the handler's call
    ambiguous (`StubWitnesses.Ambiguous`), or take it: a method that has the signal's arguments as its results
    fits variables better (`StubWitnesses.TakesSignal`, `StubTheorems.HandlerRunsIff`).
- The call of a method without a reply stands inside `assert()` (`tools/generate_proxy.cpp:385`), so nothing is
  sent under NDEBUG (`StubTheorems.ProxyRuns`).
- `Variant::operator=` shares the message of the other variant (`src/types.cpp:52-59`), so what is appended to the
  one shows in the other (`Operators.VariantCell.AssignThenAppend`).
- `Message::copy` takes a reference on a message that it already owns, so the copy is never freed: after any run,
  unless somebody gives back a reference that was not theirs (`Messages.CopyOutlives`).
- A service that completes a deferred call before `tag_registered()` may free the tag under the piper's hands: in a
  run this cannot happen exactly when every completion waits (`PiperLifetimes.DisciplinedIff`), and it can after
  every one that takes its call before that (`PiperLifetimes.EarlyCompletion`).
- `_parse_signature` cannot reach its "invalid signature" exit (`tools/generator_utils.cpp:146-150`): an unknown
  code has the empty name, not a null pointer (`Types.AtomsAgree`).  `SignatureParser.StrayCodes` and
  `SignatureParser.MissingBracket` give inputs.
- The comment of the forwarding stub says that the dispatcher thread invokes the real stub itself
  (`src/request-piper.cpp:44-46`); the code always enqueues, and so does the model.

## Model

| member | source | states |
|---|---|---|
| `PiperSteps.StepKeeps` | src/request-piper.cpp:42-275 | Every step of every thread keeps the invariant: each accepted call in one place, tags standing for the right calls, pipes and queues in lockstep, bus order, live addresses apart |
| `PiperTheorems.RunKeeps` | src/request-piper.cpp:42-275 | The invariant holds in every state of every interleaving, for any number of worker and completion threads |
| `PiperTheorems.ExactlyOnce` | src/request-piper.cpp:42-148 | In every reachable state each accepted call is in exactly one place (queue, hand, parked, response queue, dispatcher, bus) and no call is replied to twice |
| `PiperTheorems.PipesMatchQueues` | src/request-piper.cpp:75-82 | Tags in the response pipe and in the dispatcher's hand stand, one by one, for the calls of response_queue; NULLs are as many as signals; request bytes and woken threads are as many as requests |
| `PiperTheorems.NoEmptyPop` | src/request-piper.cpp:112-206 | No thread pops an empty queue: the "unexpectedly empty" branch and the unguarded pops of the dispatcher are safe |
| `PiperTheorems.TagSafety` | src/request-piper.cpp:169-207 | When the dispatcher has popped a response under a tag, the continuation of the tag exists and is of the very call, even if the worker answered before registration and though freed addresses are reused |
| `PiperTheorems.RightReply` | src/request-piper.cpp:84-94 | The reply sent answers the call whose response was popped, with its body, and the continuation is gone |
| `PiperTheorems.CompletionForwards` | src/request-piper.cpp:256-275 | A completion after tag_registered() finds its tag and takes over the call, under its original tag, alone |
| `PiperTheorems.CompletionForwardsIff` | src/request-piper.cpp:256-275 | While tags stay allocated during a return_now: it forwards exactly when the tag is registered and not yet returned; otherwise, as on a second return_now, the state is as if it had not been called |
| `PiperTheorems.AnnouncedInTime` | src/request-piper.cpp:137-146 | If completions start only after tag_registered(), that call always comes while the deferred call is parked |
| `PiperTheorems.AnnouncesAllocated` | src/request-piper.cpp:137-146 | In such a run a tag about to be announced is still allocated, and may not be freed: tag_registered() runs on a live object |
| `PiperLifetimes.DisciplinedIff` | src/request-piper.cpp:137-146 | In a run no state is ever reached from which a tag could die before its tag_registered() exactly when no completion starts before that call |
| `PiperLifetimes.MayDieIff` | src/request-piper.cpp:137-146 | The tag can be freed under a thread that has yet to announce it, without a further completion, exactly when its call has been taken and no other is being deferred under it |
| `PiperLifetimes.EarlyCompletionIff` | src/request-piper.cpp:256-275 | Of all steps that can follow the registration exactly a completion of the tag lays it open |
| `PiperLifetimes.EarlyCompletion` | src/request-piper.cpp:256-275 | After every completion that takes its call before the announcement a state is reached in which tag_registered() is due on a dead tag |
| `PiperLifetimes.FreedBeforeAnnounced` | src/request-piper.cpp:143-145 | Such a state is reached from the empty piper with two threads |
| `PiperLifetimes.FreedDuringReturn` | src/request-piper.cpp:256-275 | From every reachable state in which a return_now is past its look-up and the dispatcher is free: if the tag is freed and its address reused, the late body answers the new call while that still waits in the queue |
| `PiperLifetimes.LateReturn` | src/request-piper.cpp:256-275 | Such a state is reached: a return_now on a tag under which nothing is deferred |
| `PiperTheorems.AnnounceIsHeard` | src/request-piper.cpp:137-146 | In such a run tag_registered() marks the tag as announced, which is what a completion needs to forward |
| `PiperTheorems.AnnouncedStays` | src/request-piper.cpp:256-275 | An announced call stays parked, unchanged, until a completion of its own tag, whatever any thread does |
| `PiperTheorems.AnnouncedUntil` | src/request-piper.cpp:256-275 | Over any run, an announced call waits as it was parked until a completion of its tag starts |
| `PiperTheorems.DeferredCallAnswered` | src/request-piper.cpp:137-146 | Over any run in which completions wait for tag_registered(), the first completion after it answers the parked call under its original tag |
| `PiperTheorems.BusOrder` | src/request-piper.cpp:169-254 | Piped replies and signals on the bus are a prefix of the order of the critical sections of do_dispatch and _emit_signal, and the rest is what is still in flight, in order |
| `PiperTheorems.SignalBeforeReply` | src/request-piper.cpp:75-82 | Over any run: a signal emitted before a reply is submitted stands before it on the bus whenever a reply to that call is there, each at the place of its submission |
| `PiperTheorems.UnsentReply` | src/request-piper.cpp:169-207 | A reply that was submitted and is not on the bus is of a call without any reply there |
| `PiperTheorems.HistoryGrows` | src/request-piper.cpp:42-275 | No step takes anything back from the bus or from the order of submission |
| `PiperTheorems.WorkFalls` | src/request-piper.cpp:112-207 | Without new calls and signals a measure over queues, pipes and hands falls at every step, so the piper drains |
| `PiperTheorems.BoundedRun` | src/request-piper.cpp:112-207 | From any reachable state the piper takes at most as many steps by itself as there is work left |
| `PiperTheorems.QuiescentHands` | src/request-piper.cpp:112-207 | Where no internal step is possible, no thread holds anything |
| `PiperTheorems.Drained` | src/request-piper.cpp:112-207 | Where no internal step is possible all queues and pipes are empty, and the remaining continuations are exactly the original tags of the parked calls, one for each |
| `PiperTheorems.AllAnswered` | src/request-piper.cpp:42-207 | In such a state every accepted call has exactly one reply on the bus or is parked once |
| `PiperSteps.UserTagHasNoContinuation` | src/object.cpp:262-281 | A tag of the service never keys a continuation of the forwarding stub |
| `PiperSteps.OnlyInHand` | src/request-piper.cpp:181-206 | A call whose response the dispatcher holds is in no other queue and no other hand |
| `PiperHistory.RequestsInOrder` | src/request-piper.cpp:112-125 | Over any run the waiting requests are the calls accepted last, in the order of acceptance, so that a worker takes the oldest |
| `PiperHistory.AnswerDelivered` | src/request-piper.cpp:129-130 | Over any run: what the original method returned for the call that a thread served is the body of every reply to that call |
| `PiperHistory.CompletionDelivered` | src/request-piper.cpp:256-275 | Over any run: what a deferred call was completed with is the body of every reply to the call that was parked |
| `PiperHistory.HandDelivered` | src/request-piper.cpp:75-82 | An answer in a thread's hand reaches the bus under no other body, whatever the other threads do |
| `PiperHistory.CarriesOn` | src/request-piper.cpp:75-207 | No step loses an answer, or gives it to another call, on its way from the hand through queue and dispatcher to the bus |
| `PiperHistory.OneBody` | src/request-piper.cpp:84-94 | While an answer is on its way there is no reply to its call with another body |
| `PiperHistory.DeferredIsParked` | src/request-piper.cpp:137-144 | The call that a worker served when return_later came is the one parked under that tag |
| `PiperHistory.SubmittedAre` | src/request-piper.cpp:75-82 | The order of submission in the machine is that of the do_dispatch and _emit_signal steps of the run |
| `PiperHistory.BusIsSubmissions` | src/request-piper.cpp:169-254 | What went through the pipe is on the bus in the order of those steps, and all of it once nothing is under way |
| `PiperHistory.DirectsInOrder` | src/request-piper.cpp:240-245 | Over any run: the signals that the dispatcher thread emits itself are all on the bus, in order, and no others went past the pipe |
| `RequestPiperObject.RequestPiper.constructor` | src/request-piper.cpp:18-30 | The empty piper is the initial state of the state machine |
| `RequestPiperObject.RequestPiper.ForwardingStub` | src/request-piper.cpp:42-63 | The request goes to the end of the queue and one byte into the pipe, and nothing else changes; the step Accept |
| `RequestPiperObject.RequestPiper.HandleMessage` | src/object.cpp:217-234 | The request goes to the end of the queue, a byte into the pipe, and the call is the continuation of the new tag: the steps Accept and Continue |
| `RequestPiperObject.RequestPiper.DoDispatch` | src/request-piper.cpp:75-82 | The response with its body and the frame with the original tag are appended, together: the step Submit |
| `RequestPiperObject.RequestPiper.ProcessPipeRequest` | src/request-piper.cpp:112-148 | A woken worker takes the oldest request; what the original method returned goes into the response queue for that call and its tag into the pipe, or the call is parked under the tag thrown |
| `RequestPiperObject.RequestPiper.CheckPipeRequest` | src/request-piper.cpp:150-160 | The same after the byte that woke the worker, which is gone |
| `RequestPiperObject.RequestPiper.EmitSignal` | src/request-piper.cpp:236-254 | On the dispatcher thread the signal is sent at once; from any other it goes to the end of the signal queue and a NULL into the pipe |
| `RequestPiperObject.RequestPiper.TakeRequest` | src/request-piper.cpp:112-125 | The oldest request is taken, and it is there |
| `RequestPiperObject.RequestPiper.Park` | src/request-piper.cpp:137-144 | The request is kept under the tag of the service |
| `RequestPiperObject.RequestPiper.TakeDeferred` | src/request-piper.cpp:258-266 | The parked call of the tag is taken, or nothing |
| `RequestPiperObject.RequestPiper.ReturnNow` | src/request-piper.cpp:256-275 | A parked call is answered with the body given, under its original tag; otherwise the base class is asked, which finds nothing, and no field changes |
| `RequestPiperObject.RequestPiper.BaseReturnNow` | src/object.cpp:262-281 | The continuation is answered with a deep copy of the body and forgotten; without one nothing is sent |
| `RequestPiperObject.RequestPiper.DoSend` | src/request-piper.cpp:84-94 | The tag of a popped response is no deferred one, its continuation is of the call of the response, and the reply goes out; the tag is freed |
| `RequestPiperObject.RequestPiper.DispatcherPipeHandler` | src/request-piper.cpp:169-207 | Whatever frame is next its entry is there: a NULL puts the oldest signal on the bus, a tag the reply to the very call of the oldest response |
| `Types.SigPrefixCode` | include/dbus-c++/types.h:252-311 | No signature of a type is a proper prefix of another, and equal signatures have equal types |
| `Types.SigAllPrefixCode` | include/dbus-c++/types.h:288-311 | The members of a struct are determined by their signatures up to the closing parenthesis |
| `Types.AtomsAgree` | include/dbus-c++/types.h:153-243 | The generators' table of names and the specializations of type<T>::sig() are each other's inverse, and any other code has the empty name |
| `Types.TextPrefixCode` | tools/generator_utils.cpp:52-82 | The C++ type texts are a prefix code too: text determines type |
| `Types.TextAllPrefixCode` | tools/generator_utils.cpp:84-165 | Comma-separated lists of type texts determine their members |
| `SignatureParser.ParseSignature` | tools/generator_utils.cpp:84-165 | On every string the loop terminates, reads nothing beyond the terminator, and appends exactly the text, and leaves exactly the index, of the recursive specification |
| `SignatureParser.ParseCharacter` | tools/generator_utils.cpp:92-155 | One pass of the switch, nested calls included, does what the specification says of one type |
| `SignatureParser.SignatureToType` | tools/generator_utils.cpp:167-173 | The whole string is compiled from an empty text at index 0 |
| `SignatureParser.OneType` | tools/generator_utils.cpp:90-155 | Where the signature of a type stands in the string, one pass emits the text of the type and leaves the index on the last character of the signature |
| `SignatureParser.OneVector` | tools/generator_utils.cpp:94-127 | An array emits its vector text and leaves the index on its last character, through the only_once call and through the special case of arrays of structs |
| `SignatureParser.OneMap` | tools/generator_utils.cpp:98-106 | A dictionary emits its map text; the nested call stops on the brace, where the index stays |
| `SignatureParser.OneStruct` | tools/generator_utils.cpp:128-137 | A struct emits its text; the nested call stops on the parenthesis, where the index stays |
| `SignatureParser.TypeList` | tools/generator_utils.cpp:157-165 | A list of types is compiled to their texts with commas between them and none at the end |
| `SignatureParser.CompilesToText` | tools/generator_utils.cpp:167-173 | signature_to_type of type<T>::sig() is the C++ text of T, for every type |
| `SignatureParser.CompilesToTexts` | tools/generator_utils.cpp:167-173 | signature_to_type of a sequence of signatures is the comma-separated list of the type texts |
| `SignatureParser.GeneratedTypeHasSignature` | include/dbus-c++/types.h:252-311 | The generated type gives back the original signature, and is the only type that does |
| `SignatureParser.CompiledInjective` | tools/generator_utils.cpp:84-173 | Two different valid signatures never compile to the same text |
| `SignatureParser.ParseBalanced` | tools/generator_utils.cpp:84-165 | On every string, valid or not, the emitted angle brackets balance |
| `SignatureParser.CompiledBalanced` | tools/generator_utils.cpp:167-173 | Every compiled text has balanced angle brackets |
| `SignatureParser.StrayCodes` | tools/generator_utils.cpp:139-150 | Of an invalid signature nothing is reported: an unknown code has no text, and a closing bracket ends the text |
| `SignatureParser.MissingBracket` | tools/generator_utils.cpp:98-137 | The end of the signature closes what is open: (i compiles like (i) |
| `TypeNames.CompiledRead` | include/dbus-c++/types.h:153-311 | A reader that knows the names of the types and templates for which type<> is specialized reads the text generated for a signature as that very signature |
| `TypeNames.NameRead` | tools/generator_utils.cpp:94-137 | It reads the text of every type up to its end, whatever follows |
| `Wire.Reader.Into` | src/message.cpp:227-232 | An iterator into a container has its children to read, and inside an array knows the element type |
| `Wire.Reader.Next` | src/message.cpp:56-60 | One value is passed; at the end nothing happens |
| `Wire.Reader.Recurse` | src/message.cpp:227-232 | A new iterator over the children, the outer one unmoved |
| `Wire.Reader.Signature` | src/message.cpp:234-237 | The signature of the current value, for an empty array the element type |
| `Wire.Reader.CopyData` | src/message.cpp:329-366 | The target has what it had and then exactly the remaining values, empty arrays with their element types; the source is exhausted |
| `Wire.Reader.CopyContainer` | src/message.cpp:342-364 | A container is copied as one of the same kind with copies of its children in order, an array or a variant under its signature |
| `Wire.Writer.AppendBasic` | src/message.cpp:69-72 | One leaf is appended |
| `Wire.Writer.OpenContainer` | src/message.cpp:266-300 | A container is opened with its kind and signature and is empty |
| `Wire.Writer.CloseContainer` | src/message.cpp:302-305 | The container with all that went into it becomes one value |
| `Ordering.InOrderVisits` | include/dbus-c++/types.h:423-431 | The iterator of a std::map visits every key once, in ascending order |
| `Ordering.StringLessIff` | include/dbus-c++/types.h:423-431 | The order of texts is that of a dictionary: a proper prefix first, otherwise the smaller character at the first difference |
| `WireForm.KeysAscend` | include/dbus-c++/types.h:423-431 | The keys of a map are visited in ascending order, numbers by size and texts as in a dictionary, each once |
| `WireForm.MapForm` | include/dbus-c++/types.h:417-435 | A map is an array under its entry signature, with one entry of key and value for each key, in ascending order of the keys |
| `WireForm.VectorForm` | include/dbus-c++/types.h:392-406 | A vector is an array under the signature of its element type, with its elements in order |
| `WireForm.StructForm` | include/dbus-c++/types.h:455-467 | A struct has its members in order |
| `WireForm.VariantForm` | src/types.cpp:78-90 | A variant has its one content under the signature of the content |
| `WireForm.AtomForm` | include/dbus-c++/types.h:320-390 | A basic value goes out under its type code as it is, and a text up to its first NUL |
| `WireForm.Widths` | include/dbus-c++/types.h:153-243 | An integer type holds what its bits hold, one of them the sign where it is signed |
| `Extraction.ReadBasicIff` | src/message.cpp:74-80 | A basic value is read exactly when it has the very type of the destination; anything else throws |
| `Extraction.ReadIff` | include/dbus-c++/types.h:476-641 | Reading throws exactly where a value does not fit the destination, member by member; bytes are taken by the element signature of their array alone |
| `Extraction.ReadableTyped` | include/dbus-c++/types.h:476-641 | Whatever was sent: what is read without a throw has the type of the destination |
| `Extraction.VectorRead` | include/dbus-c++/types.h:550-586 | Reading a vector leaves its elements and then those of the array, in order, each read into a new variable |
| `Extraction.StructRead` | include/dbus-c++/types.h:631-641 | Each member is read into its own member |
| `Extraction.MapRead` | include/dbus-c++/types.h:588-611 | Reading a map leaves its entries with those of the array put over them, a later one over an earlier one |
| `Marshal.ToTreeTyped` | include/dbus-c++/types.h:392-467 | What is appended for a value has the shape of its type and the signature type<T>::sig() |
| `Marshal.TypedWellFormed` | include/dbus-c++/types.h:252-311 | A tree of the shape of a type is well-formed and has the type's signature |
| `Marshal.ReadSucceeds` | include/dbus-c++/types.h:550-641 | A value of the expected signature is always read without a throw, into any destination |
| `Marshal.ReadTyped` | include/dbus-c++/types.h:550-641 | Reading leaves a value of the destination's type, whoever sent the message |
| `Marshal.RoundTrip` | include/dbus-c++/types.h:550-641 | For every value, destination and type: reading what was appended absorbs into the destination what arrives of the value |
| `Marshal.FreshArrival` | include/dbus-c++/types.h:643-650 | What arrives of a value is what reading it into a new variable gives |
| `Marshal.ArrivesWholeIff` | include/dbus-c++/types.h:374-390 | All of a value arrives exactly when no text in it has NUL |
| `Marshal.LastArrives` | include/dbus-c++/types.h:588-611 | Of a map the keys arrive cut, each with what arrives of the last value appended under it |
| `Marshal.MapSurvivesIff` | include/dbus-c++/types.h:588-611 | A map read into a map ends up as the one sent exactly when nothing is left over, the keys with NUL were there before with their values, and each other key gets its own value from the last one cut to it |
| `Marshal.AbsorbIff` | include/dbus-c++/types.h:550-611 | After reading the destination equals the value sent exactly when no vector in it had elements and no map a key of its own |
| `Marshal.FreshReceptive` | include/dbus-c++/types.h:558-564 | A default-constructed destination always qualifies |
| `Marshal.SurvivesIff` | include/dbus-c++/types.h:374-390 | For every value and destination: the value survives exactly when it has no NUL and the destination is receptive, or, where both hold NUL, the destination supplies what is lost |
| `Marshal.FreshSurvivesIff` | include/dbus-c++/types.h:374-390 | Into a new variable only NUL can spoil it |
| `Marshal.AppendsToVector` | include/dbus-c++/types.h:558-565 | A concrete vector that is not equal to what was sent: it keeps its element and gains another |
| `Operators.Put` | include/dbus-c++/types.h:320-390 | Appends exactly one value, the tree of the C++ value, to what the iterator had |
| `Operators.PutVector` | include/dbus-c++/types.h:392-406 | The loop over a vector appends one array with the elements in order |
| `Operators.PutBytes` | include/dbus-c++/types.h:408-415 | The fixed-array path for bytes appends the same tree as the generic one |
| `Operators.PutMap` | include/dbus-c++/types.h:417-435 | A map becomes one array of entries with the entry signature, in ascending order of the keys (`WireForm.MapForm`) |
| `Operators.PutEntries` | include/dbus-c++/types.h:424-431 | One entry for each key, in ascending order |
| `Operators.Traverse` | include/dbus-c++/types.h:424-431 | The keys as the map iterator gives them |
| `Operators.PutEntry` | include/dbus-c++/types.h:426-430 | Key and value, in this order, in an entry of their own |
| `Operators.PutStruct` | include/dbus-c++/types.h:455-467 | The members in order in one struct |
| `Operators.PutVariant` | src/types.cpp:78-90 | A variant with the signature of its content and a deep copy of it |
| `Operators.Get` | include/dbus-c++/types.h:476-546 | Reads the next value and advances by exactly one value, or throws and stays; `Extraction.ReadIff` says which |
| `Operators.GetVariant` | src/types.cpp:92-105 | A copy of the content, or a throw if the value is no variant |
| `Operators.GetVector` | include/dbus-c++/types.h:550-586 | The destination's elements and then those read; both the generic and the byte path |
| `Operators.GetElems` | include/dbus-c++/types.h:558-565 | All elements, or a throw at the first that does not fit |
| `Operators.GetMap` | include/dbus-c++/types.h:588-611 | The destination with the entries read put over it |
| `Operators.GetStruct` | include/dbus-c++/types.h:631-641 | The members in order, each into its own member |
| `Operators.GetFields` | include/dbus-c++/types.h:635-638 | Member after member, or a throw |
| `Operators.VariantCell.FromIter` | src/types.cpp:44-50 | Construction from an iterator copies the content into a message of its own and leaves the iterator |
| `Operators.VariantCell.Clear` | src/types.cpp:61-65 | A new, empty message; variants that shared the old one keep it |
| `Operators.VariantCell.Assign` | src/types.cpp:52-59 | Both variants share one message afterwards |
| `Operators.VariantCell.Append` | src/types.cpp:67-76 | One value is appended to the message, for every variant that shares it |
| `Operators.VariantCell.AssignThenAppend` | src/types.cpp:52-76 | What is appended to a copy shows in the original |
| `Operators.VariantCell.Cast` | include/dbus-c++/types.h:643-650 | The conversion reads the content into a new variable, or throws |
| `Operators.VariantCell.FillAndCast` | include/dbus-c++/types.h:643-650 | A value written into a variant comes out of the conversion exactly when its texts have no NUL |
| `Operators.VariantCell.ReadAndWrite` | src/types.cpp:78-105 | Reading a variant and writing it back appends the very tree that was read; a value that is no variant changes nothing |
| `StubGenerators.DecimalInjective` | tools/generator_utils.h:37-43 | Different numbers have different decimal texts |
| `StubGenerators.GenerateProxy` | tools/generate_proxy.cpp:230-474 | The generator's loops write the stub: parameters, call, marshalling in order, the reply or no reply, and the results, for none, one and several |
| `StubGenerators.WriteParams` | tools/generate_proxy.cpp:248-325 | One parameter for each argument, with its type text and its given or numbered name |
| `StubGenerators.WriteInserts` | tools/generate_proxy.cpp:337-368 | One insertion for each in-argument, in order, under the names of the parameters |
| `StubGenerators.WriteResults` | tools/generate_proxy.cpp:392-470 | A single result goes into a variable that is returned, several into the parameters |
| `StubGenerators.GenerateAdaptor` | tools/generate_adaptor.cpp:487-687 | The generator's loops write the handler: variables extracted in order, the call, and the results inserted in order |
| `StubGenerators.WriteUnmarshalling` | tools/generate_adaptor.cpp:495-503 | A declaration and an extraction for each argument, under counted or given names |
| `StubGenerators.WriteServing` | tools/generate_adaptor.cpp:526-650 | A single result is initialized by the call; several are declared first and passed after the in-arguments |
| `StubGenerators.WriteCountedInserts` | tools/generate_adaptor.cpp:678-681 | One insertion for each result, numbered from 1 |
| `StubGenerators.GenerateEmitter` | tools/generate_adaptor.cpp:392-471 | The emitter of a signal: counted parameters, inserted in order |
| `StubGenerators.GenerateHandler` | tools/generate_proxy.cpp:538-627 | The handler of a signal: variables extracted in order and passed in order |
| `StubGenerators.WriteProxyBlock` | tools/generate_proxy.cpp:488-528 | The declared parameters of the user's signal handler, unnamed ones numbered with the prefix argin |
| `StubGenerators.WriteAdaptorBlock` | tools/generate_adaptor.cpp:308-384 | The declared parameters of the user's method: the given names, and those of the results only if they are several |
| `StubGenerators.WriteIntrospectBlock` | tools/generate_adaptor.cpp:151-265 | The static variables of introspect(): an array for each member and the tables of the class |
| `StubGenerators.GenerateProxyClass` | tools/generate_proxy.cpp:100-627 | Members, declarations and stubs of the proxy's class, in the order of the interface |
| `StubGenerators.GenerateAdaptorClass` | tools/generate_adaptor.cpp:95-687 | Members, declarations, emitters and handlers of the adaptor's class, in the order of the interface |
| `StubNames.ProxyStubCompilesIff` | tools/generate_proxy.cpp:230-474 | A stub compiles exactly when its parameters have names of their own, none that its body needs, and no member hides the function of the library that it calls |
| `StubNames.HandlerStubCompilesIff` | tools/generate_proxy.cpp:483-627 | The handler of a signal and its declaration compile exactly when no two of its names meet, in the numbering of either |
| `StubNames.AdaptorStubCompilesIff` | tools/generate_adaptor.cpp:270-384 | The handler of a method and its declaration compile exactly when the method is not named like a variable of the handler and no given name is repeated |
| `StubNames.EmitterStubCompilesIff` | tools/generate_adaptor.cpp:392-471 | An emitter compiles exactly when no member is called emit_signal |
| `StubClasses.IntrospectBlockIff` | tools/generate_adaptor.cpp:151-265 | The static variables of introspect() are apart exactly when the names of the members are |
| `Overloads.SelectsIff` | tools/generate_proxy.cpp:538-627 | Where some function fits a call exactly, the language selects one exactly when that one fits exactly and no other that fits could change an argument of its type that it takes as constant |
| `StubClasses.HandlerSelectsIff` | tools/generate_proxy.cpp:538-627 | The call in a signal's handler compiles exactly when one function of the name is selected so |
| `StubClasses.HeededAlone` | tools/generate_proxy.cpp:538-627 | Where no other member has the signal's name the handler reaches the user's function |
| `StubClasses.AdaptorSelects` | tools/generate_adaptor.cpp:526-650 | The call in a method's handler is never ambiguous, though introspect() or a stub may have its name |
| `StubClasses.StubNamesDistinct` | tools/generator_utils.cpp:37-50 | Of identifiers, different ones have different stubs |
| `StubClasses.ProxyCompilesIff` | tools/generate_proxy.cpp:100-627 | The proxy's class compiles exactly when the names and declarations of its interface are clear for it, members that share a name included |
| `StubClasses.AdaptorCompilesIff` | tools/generate_adaptor.cpp:95-687 | The adaptor's class compiles exactly when the names of its interface are clear for it |
| `StubNames.MethodsReturn` | tools/generate_proxy.cpp:230-474 | A method's stub returns a variable of its result type that it has declared, the proxy its only result and the handler the reply, or is void and returns nothing |
| `StubNames.SignalsReturn` | tools/generate_adaptor.cpp:392-471 | The two halves of a signal are void and return nothing |
| `StubWitnesses.UnnamedNumbers` | tools/generate_proxy.cpp:248-325 | How arguments without names are numbered: from 0 in a proxy, from 1 in an adaptor, and the prefixes |
| `StubWitnesses.MadeNames` | tools/generator_utils.cpp:37-50 | The names of the classes and stubs of a concrete interface |
| `StubWitnesses.DeclaredNames` | tools/generate_adaptor.cpp:308-384 | A concrete method: the names with which it is declared, those of its results only where they are several |
| `StubWitnesses.MembersDeclared` | tools/generate_adaptor.cpp:95-384 | A concrete interface: the member functions of its two classes, with types and constness of their parameters |
| `StubWitnesses.TablesNamed` | tools/generate_adaptor.cpp:151-265 | The static variables of introspect() of a concrete interface |
| `StubWitnesses.HidesInvoke` | tools/generate_proxy.cpp:375-390 | A method invoke_method: its proxy does not compile |
| `StubWitnesses.HidesInvokeNoReply` | tools/generate_proxy.cpp:375-390 | A method invoke_method_noreply without a reply: its proxy compiles exactly under NDEBUG |
| `StubWitnesses.HidesEmit` | tools/generate_adaptor.cpp:392-471 | A signal emit_signal: its adaptor does not compile |
| `StubWitnesses.RepeatsNumber` | tools/generate_proxy.cpp:488-528 | An argument argin1 before an unnamed one: the handler's variables are apart, the proxy does not compile |
| `StubWitnesses.RepeatsName` | tools/generate_adaptor.cpp:308-384 | Two arguments of one name: the handler compiles, the adaptor does not |
| `StubWitnesses.TakesSignal` | tools/generate_proxy.cpp:538-627 | A method named like a signal that takes the signal's arguments as results: the proxy compiles and the handler calls the method |
| `StubWitnesses.Ambiguous` | tools/generate_proxy.cpp:538-627 | If it takes only some of them so and the language converts the rest, the proxy does not compile |
| `StubRuns.AdaptorExecutes` | tools/generate_adaptor.cpp:487-687 | On any message that begins with values that can be read as the parameters: the handler calls the method once, with the values extracted in order, and replies with its results in order |
| `StubRuns.AdaptorThrows` | tools/generate_adaptor.cpp:495-503 | On any other message the handler throws and the method is not called |
| `StubRuns.ProxyExecutes` | tools/generate_proxy.cpp:326-474 | The stub sends what its arguments hold, once, and its results are what arrives of the reply |
| `StubRuns.HandlerExecutes` | tools/generate_proxy.cpp:538-627 | The user's signal handler is called once with the values extracted in order |
| `StubRuns.HandlerThrows` | tools/generate_proxy.cpp:549-576 | On an ill-typed signal it throws and the user's handler is not called |
| `StubRuns.FilledSent` | tools/generate_adaptor.cpp:392-471 | The values of the parameters go out in order, in one signal |
| `StubLanguage.CompiledNames` | tools/generator_utils.cpp:167-173 | The type text that a generator writes names the type of the signature and no other |
| `StubLanguage.InsertsRun` | tools/generate_proxy.cpp:337-368 | A row of insertions puts the values of the variables into the message, in order |
| `StubLanguage.ExtractsRun` | tools/generate_proxy.cpp:429-470 | A row of extractions fills the variables, in order |
| `StubLanguage.DeclareExtractsRun` | tools/generate_adaptor.cpp:495-503 | Declarations and extractions in turn fill new variables, in order |
| `StubLanguage.ReceivedTyped` | include/dbus-c++/types.h:550-641 | What arrives in new variables has their types |
| `StubLanguage.ReceivedUnchangedIff` | include/dbus-c++/types.h:550-641 | Values arrive unchanged exactly when each survives in its destination |
| `StubLanguage.FreshUnchangedIff` | include/dbus-c++/types.h:558-565 | Values arrive unchanged in new variables exactly when they have no NUL |
| `StubTheorems.AdaptorRuns` | tools/generate_adaptor.cpp:487-687 | In a class whose names are clear the handler calls the method once, with the values extracted, and replies with its results |
| `StubTheorems.FrontIff` | src/message.cpp:74-80 | A message can be extracted exactly when it begins with values that fit the parameters one by one, and then what is extracted has their types |
| `StubTheorems.AdaptorRunsIff` | tools/generate_adaptor.cpp:95-687 | For every message, well-typed or not: it is answered, after one call of the method with values of the right types, exactly when the names are clear for the adaptor and it begins with values that fit the parameters |
| `StubTheorems.ProxyRuns` | tools/generate_proxy.cpp:230-474 | The stub sends one message with the arguments and brings the results of the reply to the caller; a method without a reply sends nothing under NDEBUG |
| `StubTheorems.ProxyRunsIff` | tools/generate_proxy.cpp:100-474 | The proxy compiles, and runs to its end against a side that answers well, exactly when its interface is clear for it |
| `StubTheorems.Found` | src/interface.cpp:56-71 | The table of handlers gives back each method under its name |
| `StubTheorems.FindIff` | src/interface.cpp:56-71 | A look-up finds the last method of the name, and nothing exactly when no method has it |
| `StubTheorems.CallDelivers` | tools/generate_proxy.cpp:337-470 | Proxy and adaptor of a whole interface, for none, one or many results: one message, one call of the method that it names with what arrives, and what arrives of its results at the caller |
| `StubTheorems.CallRunsIff` | tools/generate_adaptor.cpp:487-687 | Both sides compile and run exactly when the names of the interface are clear for both |
| `StubTheorems.CallTransparentIff` | tools/generate_proxy.cpp:392-470 | Exactly when such a call is transparent: arguments without NUL; a single result without NUL, several results each surviving in its caller's variable |
| `StubTheorems.ResultsAbsorbed` | tools/generate_proxy.cpp:429-470 | With several results what arrives of each is added to what the caller's variable holds |
| `StubTheorems.EmitterRunsIff` | tools/generate_adaptor.cpp:392-471 | The emitter sends its arguments, once, exactly when the names are clear for the adaptor |
| `StubTheorems.HandlerRunsIff` | tools/generate_proxy.cpp:538-627 | For every message, well-typed or not: the user's handler is called, once and with values of the right types, exactly when the interface is clear for the proxy, no method takes the call, and the message begins with values that fit |
| `StubTheorems.MisdirectedUnheard` | tools/generate_proxy.cpp:538-627 | When a method takes the call the user's handler hears nothing |
| `StubTheorems.SignalDeliversIff` | tools/generate_proxy.cpp:538-627 | From emitter to handler: one message, sent and heard exactly when the names are clear for both, and with the arguments themselves exactly when they have no NUL |
| `Framing.HeaderValue` | src/pipe.cpp:73-87 | The four header bytes read back as the length written |
| `Framing.ValueHeader` | src/pipe.cpp:118-137 | Every four bytes are the header of the length that they read as |
| `Framing.StepKeeps` | src/pipe.cpp:65-178 | Every partial, interrupted or would-block call on either side keeps reader and writers in step |
| `Framing.HeaderComplete` | src/pipe.cpp:113-132 | Between frames, if anything is in the pipe a whole header is |
| `Framing.FirstFrame` | src/pipe.cpp:154-168 | The frame being read is the oldest that was not delivered, and complete it is that payload |
| `Framing.DeliveredInOrder` | src/pipe.cpp:65-178 | For every schedule and any number of writers: the payloads read are a prefix of those written in lock order, and exactly 4 + n bytes are consumed for each |
| `Framing.EmptyReadHarmless` | src/pipe.cpp:121-134 | A read of an empty pipe returns 0 with nothing in hand and nothing changed |
| `Framing.NothingLost` | src/pipe.cpp:65-178 | When writers and reader are done and the pipe is empty, everything was delivered |
| `Framing.WorkFalls` | src/pipe.cpp:65-178 | Every call that moves anything brings the transfer nearer to its end |
| `Framing.Stuck` | src/pipe.cpp:65-178 | Where nothing can move, no writer is in a frame, the pipe is empty and everything was delivered |
| `Framing.Drains` | src/pipe.cpp:65-178 | From every state of every run all that was written can still be delivered |
| `Framing.Transmits` | src/pipe.cpp:65-178 | Any payloads can be sent through the pipe, empty ones too |
| `Framing.Pipe.WriteAll` | src/pipe.cpp:89-105 | The loop writes all bytes once, through EINTR and partial writes |
| `Framing.Pipe.Write` | src/pipe.cpp:65-108 | Length and payload, after what was in the pipe |
| `Framing.Pipe.ReadAll` | src/pipe.cpp:154-168 | On a descriptor made blocking the loop takes exactly the next n bytes, through EINTR and partial reads, waiting for those that other threads are still writing |
| `Framing.Pipe.Read` | src/pipe.cpp:110-178 | An empty pipe is left alone; otherwise the first payload is returned, its frame and nothing else is gone even if it was still being written, and the descriptor flag is restored |
| `Framing.ReadCanFinish` | src/pipe.cpp:113-168 | In every interleaving a reader that finds anything finds a whole header, and the payload is there or on its way |
| `Framing.FirstOf` | src/pipe.cpp:110-178 | The first bytes of whole frames are the header and the payload of the first |
| `Framing.Pipe.Arrive` | src/pipe.cpp:65-108 | Other threads append what they write, whole system calls, in their order |
| `Framing.Pipe.WriteThenRead` | src/pipe.cpp:65-178 | After a write the next read returns the oldest payload that waits, the written one if none did, and leaves the rest and what others write meanwhile |
| `EventLoop.ArrivalKeeps` | src/pipe.cpp:65-108 | Writes of others leave the frames of a pipe what they are |
| `EventLoop.WritersHold` | src/pipe.cpp:65-108 | However writers split their payloads into system calls, between two reads the pipe and what will still be written are whole frames, with no header there in part |
| `EventLoop.ReadTakes` | src/pipe.cpp:110-178 | Reading takes the first frame away, whatever others write while it waits |
| `EventLoop.BusDispatcher.AddPipe` | src/eventloop-integration.cpp:134-140 | A new pipe goes to the end of the list with the frames that it will get |
| `EventLoop.BusDispatcher.TakeOne` | src/eventloop-integration.cpp:106-111 | A pipe that is not empty as its turn comes gives up its first frame, another nothing, while others write |
| `EventLoop.BusDispatcher.Iteration` | src/eventloop-integration.cpp:102-117 | Every pipe has its turn, and the handlers hear the non-empty frames in the order of the list, while others write |
| `EventLoop.BusDispatcher.Enter` | src/eventloop-integration.cpp:92-121 | In n iterations each pipe gives up n frames, or all that had begun to arrive at the start, or more of those that came meanwhile |
| `EventLoop.HeardInOrder` | src/eventloop-integration.cpp:102-117 | In one iteration the handlers hear in the order of the list, each at most once |
| `EventLoop.BegunAt` | src/pipe.cpp:65-108 | How many frames have begun to arrive: those there as a whole, and one more when a part of it is |
| `EventLoop.FairShare` | src/eventloop-integration.cpp:102-117 | A pipe that gave up n frames made its handler hear its first n frames, in order, except empty ones, whatever the other pipes hold and whenever frames arrive |
| `Dispatching.Dispatcher.QueueConnection` | src/dispatcher.cpp:160-167 | The entry goes to the end and nothing else changes |
| `Dispatching.Dispatcher.DoDispatch` | src/connection.cpp:119-135 | True unless data remains; meanwhile others may only append |
| `Dispatching.Dispatcher.Pass` | src/dispatcher.cpp:234-255 | One pass over the snapshot dispatches every entry once, in order; those of which data remains stay, in order |
| `Dispatching.Dispatcher.DispatchCopy` | src/dispatcher.cpp:227-258 | Pass after pass until every entry of the snapshot was dispatched to the end, in exactly the order of the passes; it terminates when the data does |
| `Dispatching.PassesUntilDone` | src/dispatcher.cpp:234-255 | In these passes each entry is dispatched until nothing remains of it and not once more, and nothing else is |
| `Dispatching.LeftIff` | src/dispatcher.cpp:238-255 | After a pass an entry is left exactly when data remains of it |
| `Dispatching.Dispatcher.EraseFront` | src/dispatcher.cpp:207-223 | Exactly the first `count` entries are erased, each dispatched to the end before |
| `Dispatching.Dispatcher.Round` | src/dispatcher.cpp:186-225 | One round, with arrivals at every point outside the locks: exactly the snapshot is erased, and what is pending afterwards is exactly what was queued meanwhile, in order |
| `Dispatching.Dispatcher.DispatchPending` | src/dispatcher.cpp:186-225 | When arrivals end so does the loop, with every entry ever queued erased in the order of queueing |
| `Dispatching.EntryServed` | src/dispatcher.cpp:186-258 | Every erased entry was queued, then dispatched to the end, then erased |
| `RefCount.Memory.New` | include/dbus-c++/util.h:163-165 | A new handle with a counter of its own |
| `RefCount.Memory.Copy` | include/dbus-c++/util.h:53-57 | One more handle to the same pointee |
| `RefCount.Memory.Unref` | include/dbus-c++/util.h:88-101 | The counter falls, and is freed with its last holder |
| `RefCount.Memory.AssignCount` | include/dbus-c++/util.h:64-70 | The other counter goes up before the own goes down, also when they are the same |
| `RefCount.Memory.Assign` | include/dbus-c++/util.h:172-182 | The handle moves, and the old pointee is deleted exactly if no handle to it is left; aliases and self-assignment included |
| `RefCount.Memory.Drop` | include/dbus-c++/util.h:167-170 | The handle is gone, and the pointee is deleted exactly if it was the last |
| `RefCount.Memory.Run` | include/dbus-c++/util.h:43-207 | Any sequence of operations deletes as the account without counters says; no counter is read after it was freed |
| `RefCount.OneMeansLast` | include/dbus-c++/refptr_impl.h:39-43 | The counter reads one exactly for the last handle |
| `RefCount.DeletedExactlyOnce` | include/dbus-c++/util.h:43-207 | Over any run: what was handed over is what was deleted together with what live handles own |
| `RefCount.NeverTwice` | include/dbus-c++/util.h:43-207 | A pointee handed over once is owned or deleted once, never both and never twice |
| `Messages.Wrappers.FromPrivate` | src/message.cpp:376-383 | A wrapper shares in the reference or takes over a spare one |
| `Messages.Wrappers.CopyOf` | src/message.cpp:385-396 | One more wrapper and one more reference, with the Private shared or new |
| `Messages.Wrappers.Unshare` | src/message.cpp:388-393 | The wrapper gets a Private of its own by way of a temporary, and no Private is lost |
| `Messages.Wrappers.Destroy` | src/message.cpp:398-402 | The wrapper and its reference are gone |
| `Messages.Wrappers.Assign` | src/message.cpp:404-415 | The wrapper moves; giving up the old reference first is safe |
| `Messages.Wrappers.Copy` | src/message.cpp:417-422 | A copied message starts with two references and one wrapper |
| `Messages.Wrappers.Run` | src/message.cpp:376-422 | Any sequence of operations on wrappers keeps the books of wrappers and references |
| `Messages.StepBalances` | src/message.cpp:376-422 | An operation moves the spare references of a message by what the ledger says: up when somebody else takes one, down for a take-over or a release |
| `Messages.RunBalances` | src/message.cpp:376-422 | Over any run the spare references of a message change by the ledger and nothing else |
| `Messages.AliveIff` | src/message.cpp:376-422 | After any run a message is still allocated exactly when a wrapper of it is left or the run used up fewer references than were spare |
| `Messages.CopyOutlives` | src/message.cpp:417-422 | A copied message without wrappers is still allocated, after any run, unless its references were taken over or given back more often than taken |
| `Messages.Added` | src/message.cpp:385-396 | A new wrapper with a new reference leaves the spare references of every message as they were |
| `Messages.TakenOver` | src/message.cpp:376-383 | A wrapper without one uses up a spare reference |
| `Messages.Removed` | src/message.cpp:398-402 | A message is freed exactly when its last wrapper goes and no spare reference is left; no other message is touched |
| `Messages.Rewrapped` | src/message.cpp:404-415 | In an assignment the new message is still alive after the old reference is gone |
| `Xml.RawXml` | tools/xml.cpp:132-170 | The printer appends the tags of the tree at the given depth and restores the depth |
| `Xml.RawContent` | tools/xml.cpp:142-169 | What follows the attributes is printed by the same rule, empty elements included, and the depth is restored |
| `Xml.RawChildren` | tools/xml.cpp:160-163 | Every child, in order, at the depth of the parent's inside |
| `Xml.PrintAttributes` | tools/xml.cpp:137-140 | All attributes in ascending order of their names |
| `Xml.AttributesRestored` | tools/xml.cpp:55-65 | A node built from the printed attributes has the same attributes |
| `Xml.LastCounts` | tools/xml.cpp:55-65 | Of several attributes of one name a node keeps the last |
| `XmlLayout.AttributesAscend` | tools/xml.cpp:137-140 | The attributes of a tag come in the order of a dictionary, each once, with its value |
| `XmlLayout.PrintedLines` | tools/xml.cpp:132-170 | Every element starts on a line of its own, indented by two spaces for each element around it, and so does an end tag after children; all texts stand in their elements, in document order |
| `Xml.PrintedTags` | tools/xml.cpp:132-170 | A parser finds in the printed text the start and end events of the tree, well nested, at any depth |
| `Xml.Rebuilds` | tools/xml.cpp:259-282 | Inside an open element the events of a tree add it as the next child, and leave the depth as it was |
| `Xml.RebuildsAll` | tools/xml.cpp:259-312 | The events of several trees add them in order as the next children |
| `Xml.TreeRebuilt` | tools/xml.cpp:259-312 | From an empty document the events of any tree rebuild it, at depth 0 |
| `Xml.PrintParse` | tools/xml.cpp:132-170 | Printing and parsing give back names, attributes and the order of the children |
| `Xml.PushReaches` | tools/xml.cpp:271-277 | After a push the way down through last children leads to the node pushed to, with the new child at its end |
| `Xml.Document.Start` | tools/xml.cpp:259-282 | The loop down through back() never meets an empty vector, and the element lands where the depth says |
| `Xml.Document.End` | tools/xml.cpp:305-312 | Only the depth changes |
| `Xml.Document.FromXml` | tools/xml.cpp:199-242 | Old content is dropped and the events are handled in order; on an error of the parser what was built so far stays, and the error is thrown |

## Left out

- libdbus, expat, pthread, poll and fcntl: a message is a list of typed trees, a pipe a sequence of bytes or
  frames, a mutex the boundary of a step, and a parser the events that it reports.
- Pipe capacity: a writer blocked on a full pipe holds the mutex that the dispatcher needs, so deadlock freedom
  is not claimed.  `stop_pipe`, end of file and errors other than EINTR are not modelled either.
- The kind of a reply: an error of the original method travels as a body, since `return_now` copies only the
  body into the continuation's message; the second attempt in the catch of `do_send` is not modelled.
- Accesses to `_continuations` from several threads without a lock: each is one step of the model.
- The queue entries' `CallMessage` copies made to keep counters apart between threads: see `Messages` for what
  such a copy does to the counts; counters changed by two threads at once are not modelled.
- `Pipe::signal`: a frame without payload cannot be told from an empty pipe in `enter`; `EventLoop.FairShare`
  says that handlers never hear one.  Payloads over the 1024 bytes of the buffer of `enter` are not modelled there,
  nor watches and the unlock pipe, for which `enter` may wait between its iterations.
- EventLoop.BusDispatcher.Enter: a number of iterations is given, since the loop of the source ends when it is told.
- RequestPiperObject.RequestPiper.DispatcherPipeHandler: states the turn without interference, as do ProcessPipeRequest
  and ReturnNow; the interleaved ones are the single steps of `Piper`.
- PiperSteps.UserTagHasNoContinuation: for methods that are forwarded; of a method that the base class serves itself
  on the dispatcher thread it stores a continuation under the service's own tag.
- Overloads.SelectsIff: for calls that some function fits exactly, which are all that the generators write; two
  implicit conversions are not compared with each other.
- Operators.PutBytes: the address of the first byte of an empty vector is taken, which C++ leaves undefined; the model
  appends an empty array.
- Operators.GetStruct: a struct read from a basic value recurses into it unchecked, which libdbus leaves undefined;
  the model throws.
- Operators.Get: when reading throws, the destination is not described, although a vector or a map may already
  hold what was read before the throw.
- Floating point: a double is a real number, without NaN and infinities.
- Structs with more than 16 members, empty variants, `Invalid` members and file descriptors.
- Xml.Document.Start: the pointer into the deepest vector is modelled by a functional update along the same path.
- Xml.PrintedTags: the parser reads the units that the printer writes, not characters, since the printer does not
  escape and expat is not part of this model.
- Xml.PrintParse: the same.
- Xml.Document.FromXml: character data is skipped, so what a parsed node has as text is not described; escaping, entity
  references, and `Node::set` with an empty value are not modelled.
- Annotations of objects in the generators, lists of includes, comments, layout and commas of generated text,
  property accessors, and two references to one variable passed to a generated proxy.
- A `Message` built by its bare constructor, which holds no message until a derived class gives it one.
- Watches and timeouts, the Ecore and GLib integrations, connections, servers, pending calls, introspection,
  properties and logging: thin wrappers, or plumbing with callbacks.
