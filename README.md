# grpc-kotlin: the services and the code generator, modelled in Dafny

This project models the core of grpc-kotlin, a gRPC binding for Kotlin coroutines, in four parts.

- **Chat hub** (`ChatService`). A registry of connected clients, each a name and an outbound channel, kept in registration order. A chat session registers on its first message. It relays every later message to every client with a different name. When it ends, it removes its own entry and closes its channel. `shutdown` closes every channel and empties the registry.
- **Subscriber fan-out** (`InfiniteStreamGreeterImpl`). A server-streaming call subscribes its greeting with a fresh channel of capacity 100. A broadcast sends each subscriber a reply carrying its own name. It drops, by name, and closes every subscriber whose send fails.
- **Code generator** (`GrpcKotlinGenerator`, the protoc plugin). It selects services and methods from source-code locations and builds the template contexts: names, call kinds and javadoc blocks. It then lays out the list of output files and their paths.
- **Reference greeter** (`GreeterImpl`). It formats the replies of the unary, server-streaming, client-streaming and bidirectional calls.

A kotlinx channel is a value (`Channels.Channel`). It holds a FIFO buffer, a closed-for-send flag and a capacity. Each service keeps every channel it creates in a table and names a channel by its position there. That position plays the part of the object reference that the transport shares with the service.

Coroutines become atomic sequential steps:
- In the chat hub, `Join` is the handshake, `Relay` one pass of the receive loop, `Leave` the `finally` block, and `Chat` a whole session run without interleaving.
- In the fan-out, each launched send is one step (`SendTo`). A broadcast runs these steps in an order the model leaves open.

The module layout follows the files:

| file | module |
|---|---|
| `channels.dfy` | `Wrappers`, `Channels` |
| `text.dfy` | `Text` (ASCII case mapping, splitting and joining, Java's `split`, decimal rendering) |
| `chat.dfy` | `Chat` |
| `infinite_stream_greeter.dfy` | `InfiniteStream` |
| `greeter.dfy` | `Greeter` |
| `generator.dfy` | `Generator` |

## Model

| member | source | states |
|---|---|---|
| Channels.Channel.Send | grpc-kotlin-example-chatserver/src/main/kotlin/io/rouz/grpc/examples/chat/ChatService.kt:68 | sending to an open channel appends exactly the element; a closed channel stays as it was (the send throws); a bounded channel must have room, since a full one suspends |
| Channels.Channel.Close | grpc-kotlin-example-chatserver/src/main/kotlin/io/rouz/grpc/examples/chat/ChatService.kt:80-82 | closing keeps the buffered elements and the capacity; closing a closed channel changes nothing |
| Channels.Channel.Receive | grpc-kotlin-test/src/test/kotlin/io/rouz/greeter/ClientAbandonTest.kt:95-105 | receiving takes the oldest element if there is one, and nothing from an empty buffer |
| Channels.Open | grpc-kotlin-example-chatserver/src/main/kotlin/io/rouz/grpc/examples/chat/ChatService.kt:46 | a new channel is empty, open and has the given capacity |
| Channels.SendReceiveCommute | grpc-kotlin-test/src/test/kotlin/io/rouz/greeter/ClientAbandonTest.kt:122-126 | first in, first out: a receive after a send yields the new element only when nothing was waiting; otherwise receiving and sending commute |
| Text.ToUpper | grpc-kotlin-gen/src/main/java/io/rouz/grpc/kotlin/GrpcKotlinGenerator.java:273 | `Character.toUpperCase` on ASCII: lower-case letters map to upper case and every other character is kept |
| Text.ToLower | grpc-kotlin-gen/src/main/java/io/rouz/grpc/kotlin/GrpcKotlinGenerator.java:164 | `Character.toLowerCase` on ASCII: upper-case letters map to lower case and every other character is kept |
| Text.ToUpperToLower | grpc-kotlin-gen/src/main/java/io/rouz/grpc/kotlin/GrpcKotlinGenerator.java:283-285 | upper-casing undoes lower-casing exactly on the characters that are not lower-case letters |
| Text.JavaSplit | grpc-kotlin-gen/src/main/java/io/rouz/grpc/kotlin/GrpcKotlinGenerator.java:229 | Java's `split("\n")`: a string without the separator comes back whole; otherwise no piece holds the separator and the last piece is never empty, because trailing empty pieces are dropped |
| Text.JavaSplitLosesOnlyTrailingSeparators | grpc-kotlin-gen/src/main/java/io/rouz/grpc/kotlin/GrpcKotlinGenerator.java:229 | joining the pieces of Java's `split` gives back the string minus some trailing separators, and nothing else is lost |
| Text.Decimal | grpc-kotlin-test/src/main/kotlin/io/rouz/greeter/GreeterImpl.kt:88 | `toString` of a natural number: at least one character, only digits, and a leading zero only in "0" itself |
| Text.DecimalValue | grpc-kotlin-test/src/main/kotlin/io/rouz/greeter/GreeterImpl.kt:88 | the decimal rendering of a counter reads back as that number |
| Text.SignedDecimal | grpc-kotlin-test/src/main/kotlin/io/rouz/greeter/GreeterImpl.kt:88 | Kotlin's `"$n"` for an `Int`: a minus sign exactly when the number is negative, followed by digits only, with a leading zero only for 0 itself |
| Greeter.Greet | grpc-kotlin-test/src/main/kotlin/io/rouz/greeter/GreeterImpl.kt:42-48 | the unary reply is the greeting behind a six-character opening ("Hello "); `GreetInjective` shows that different greetings get different replies |
| Greeter.GreetCarriesGreeting | grpc-kotlin-test/src/main/kotlin/io/rouz/greeter/GreeterImpl.kt:42-48 | the unary reply is "Hello " followed by the greeting unchanged |
| Greeter.GreetInjective | grpc-kotlin-test/src/main/kotlin/io/rouz/greeter/GreeterImpl.kt:42-48 | different greetings get different unary replies |
| Greeter.GreetServerStream | grpc-kotlin-test/src/main/kotlin/io/rouz/greeter/GreeterImpl.kt:50-63 | the stream is "Hello g!" then "Greetings g!"; `ServerStreamReplies` shows they are two different replies, each ending in the greeting and "!" |
| Greeter.ServerStreamReplies | grpc-kotlin-test/src/main/kotlin/io/rouz/greeter/GreeterImpl.kt:50-63 | the server stream holds exactly two different replies, each ending in the greeting and "!" |
| Greeter.ClientStreamReply | grpc-kotlin-test/src/main/kotlin/io/rouz/greeter/GreeterImpl.kt:73-75 | the reply is "Hi to all of " and Kotlin's list rendering of the greetings, then "!"; `ClientStreamReplyRecoverable` reads the greetings back from it |
| Greeter.GreetClientStream | grpc-kotlin-test/src/main/kotlin/io/rouz/greeter/GreeterImpl.kt:65-76 | the loop collects every greeting in arrival order and replies once with "Hi to all of [g1, g2, …]!" |
| Greeter.ClientStreamReplyRecoverable | grpc-kotlin-test/src/main/kotlin/io/rouz/greeter/GreeterImpl.kt:73-75 | when no greeting holds a comma and at least one was sent, the bracketed list in the reply gives back exactly the greetings in order |
| Greeter.RenderAmbiguous | grpc-kotlin-test/src/main/kotlin/io/rouz/greeter/GreeterImpl.kt:74 | the list rendering alone does not determine the greetings: "a, b" reads like two greetings, and a single empty greeting reads like none |
| Greeter.WrapInt | grpc-kotlin-test/src/main/kotlin/io/rouz/greeter/GreeterImpl.kt:81 | Kotlin `Int` arithmetic: the result lies in -2^31 .. 2^31 - 1, agrees with the exact value modulo 2^32, and equals it below 2^31 |
| Greeter.WrapIntSame | grpc-kotlin-test/src/main/kotlin/io/rouz/greeter/GreeterImpl.kt:81 | two counts give the same `Int` exactly when they differ by a multiple of 2^32 |
| Greeter.WrapIntStep | grpc-kotlin-test/src/main/kotlin/io/rouz/greeter/GreeterImpl.kt:81 | `count++` on the wrapped counter after i requests gives the wrapped value of i + 1 |
| Greeter.NumberedReply | grpc-kotlin-test/src/main/kotlin/io/rouz/greeter/GreeterImpl.kt:88 | the reply starts with "Yo #" and ends with a space and the greeting; `NumberedReplyNumber` and `NumberedReplyInjective` show the number and greeting can be read back |
| Greeter.GreetBidirectional | grpc-kotlin-test/src/main/kotlin/io/rouz/greeter/GreeterImpl.kt:78-93 | the `Int` counter numbers the requests 0, 1, 2, … in arrival order, wrapping from 2^31 - 1 to -2^31, and ends at the wrapped number of requests; request i gets exactly the reply "Yo #n greeting" with n the wrapped value of i |
| Greeter.NumberedReplyNumber | grpc-kotlin-test/src/main/kotlin/io/rouz/greeter/GreeterImpl.kt:88 | every numbered reply gives back its number, whatever the greeting |
| Greeter.NumberedReplyInjective | grpc-kotlin-test/src/main/kotlin/io/rouz/greeter/GreeterImpl.kt:88 | two numbered replies are equal exactly when both their numbers and their greetings are |
| Greeter.BidirectionalRepliesDistinct | grpc-kotlin-test/src/main/kotlin/io/rouz/greeter/GreeterImpl.kt:79-92 | two replies of one call are equal exactly when their requests are a multiple of 2^32 apart and carry the same greeting; so a call of at most 2^32 requests gets pairwise different replies, even when greetings repeat |
| Greeter.CounterWraps | grpc-kotlin-test/src/main/kotlin/io/rouz/greeter/GreeterImpl.kt:79-81 | the counter wraps: request 2^31 is numbered -2^31 and its reply starts "Yo #-", and request 2^32 gets the same reply as request 0 for the same greeting |
| Greeter.ExampleReplies | grpc-kotlin-test/src/test/kotlin/io/rouz/greeter/ServiceCallsTest.kt:37-51 | the exact unary and server-stream replies for "rouz" |
| Greeter.ExampleClientStreamReplies | grpc-kotlin-test/src/test/kotlin/io/rouz/greeter/ServiceCallsTest.kt:60-68 | "Hi to all of [rouz, delavari]!" for the two example greetings, and "Hi to all of []!" for an empty stream |
| Greeter.ExampleNumberedReplies | grpc-kotlin-test/src/test/kotlin/io/rouz/greeter/ServiceCallsTest.kt:79-85 | the replies to the first two bidirectional requests are "Yo #0 rouz" and "Yo #1 delavari" |
| Chat.Quot | grpc-kotlin-example-chatserver/src/main/kotlin/io/rouz/grpc/examples/chat/ChatService.kt:102 | Kotlin `Long` division truncates toward zero: the quotient times the divisor lies within one divisor of the dividend, on the dividend's side of zero |
| Chat.Rem | grpc-kotlin-example-chatserver/src/main/kotlin/io/rouz/grpc/examples/chat/ChatService.kt:103 | Kotlin `Long` remainder: dividend = divisor × quotient + remainder for every dividend, negative ones included; the remainder is smaller than the divisor in magnitude and takes the dividend's sign |
| Chat.CreateMessage | grpc-kotlin-example-chatserver/src/main/kotlin/io/rouz/grpc/examples/chat/ChatService.kt:98-108 | the request is wrapped unchanged; the nanos field lies strictly between minus and plus one second |
| Chat.TimestampDenotesReading | grpc-kotlin-example-chatserver/src/main/kotlin/io/rouz/grpc/examples/chat/ChatService.kt:100-105 | when both clock readings agree on a non-negative time, seconds and nanos denote exactly that time |
| Chat.FirstBlocked | grpc-kotlin-example-chatserver/src/main/kotlin/io/rouz/grpc/examples/chat/ChatService.kt:64-69 | the fan-out stops at the first recipient whose channel is closed; none before it is closed |
| Chat.Deliver | grpc-kotlin-example-chatserver/src/main/kotlin/io/rouz/grpc/examples/chat/ChatService.kt:64-69 | one message fanned out over the registry: every client is still there, one result per client; the four `Deliver…` lemmas state whom it reaches and in what order |
| Chat.DeliverSkipsSender | grpc-kotlin-example-chatserver/src/main/kotlin/io/rouz/grpc/examples/chat/ChatService.kt:64-65 | a message never reaches a client with the sender's name, and no client changes name or closed flag |
| Chat.DeliverReachesEveryOther | grpc-kotlin-example-chatserver/src/main/kotlin/io/rouz/grpc/examples/chat/ChatService.kt:64-69 | with no closed recipient, every client with another name gets exactly the message appended |
| Chat.DeliverStopsAtClosed | grpc-kotlin-example-chatserver/src/main/kotlin/io/rouz/grpc/examples/chat/ChatService.kt:64-71 | a closed recipient aborts the fan-out: it and every later client miss the message |
| Chat.DeliverPreservesOrder | grpc-kotlin-example-chatserver/src/main/kotlin/io/rouz/grpc/examples/chat/ChatService.kt:60-69 | two messages from one session reach each open recipient in the order they were received |
| Chat.Inbox | grpc-kotlin-example-chatserver/src/main/kotlin/io/rouz/grpc/examples/chat/ChatService.kt:60-69 | what a session's stream sends the client called `name`: at most one message per request; `InboxOnlyFromOthers` and `InboxGrows` state its contents and growth |
| Chat.InboxOnlyFromOthers | grpc-kotlin-example-chatserver/src/main/kotlin/io/rouz/grpc/examples/chat/ChatService.kt:60-69 | everything a session sends a client came, unchanged, from a message with another name |
| Chat.InboxGrows | grpc-kotlin-example-chatserver/src/main/kotlin/io/rouz/grpc/examples/chat/ChatService.kt:60-70 | what a prefix of the stream sends a client is a prefix of what the whole stream sends it |
| Chat.RelayStep | grpc-kotlin-example-chatserver/src/main/kotlin/io/rouz/grpc/examples/chat/ChatService.kt:60-70 | each relay keeps every client within its inbox, completes it up to this message when nobody blocked, and nobody blocks when no channel is closed |
| Chat.SessionOutcome | grpc-kotlin-example-chatserver/src/main/kotlin/io/rouz/grpc/examples/chat/ChatService.kt:45-87 | a session on values (its fresh entry appended, the loop run with `Session`, the entry removed): the other clients were sent a prefix of their inboxes, all of it when the loop ran to the end, which it does when no channel was closed, and then the session's own entry holds its whole inbox |
| Chat.Session | grpc-kotlin-example-chatserver/src/main/kotlin/io/rouz/grpc/examples/chat/ChatService.kt:58-70 | the receive loop on values: messages are relayed in arrival order with `Deliver`; the first relay that meets a closed recipient ends the loop after its partial fan-out, and the flag says whether the stream was relayed to its end |
| Chat.SessionSentFrom | grpc-kotlin-example-chatserver/src/main/kotlin/io/rouz/grpc/examples/chat/ChatService.kt:58-70 | the loop from its t-th message on keeps every client within its inbox, sends whole inboxes when it runs to the end, and always runs to the end when no channel is closed |
| Chat.SessionSent | grpc-kotlin-example-chatserver/src/main/kotlin/io/rouz/grpc/examples/chat/ChatService.kt:58-70 | the whole loop sends every client a prefix of its inbox, all of it when it ran to the end, and it runs to the end whenever no channel was closed |
| Chat.SessionStops | grpc-kotlin-example-chatserver/src/main/kotlin/io/rouz/grpc/examples/chat/ChatService.kt:58-72 | once a relay has failed, later messages change nothing: the loop over a longer stream ends in the same state |
| Chat.SessionRuns | grpc-kotlin-example-chatserver/src/main/kotlin/io/rouz/grpc/examples/chat/ChatService.kt:58-70 | while every relay succeeds, looping over two runs of messages is looping over the first, then over the second |
| Chat.SessionAbortsAtClosed | grpc-kotlin-example-chatserver/src/main/kotlin/io/rouz/grpc/examples/chat/ChatService.kt:58-72 | with recipients [open A, closed B] and two messages from a third client, A gets only the first message, B nothing, and the loop reports failure |
| Chat.Without | grpc-kotlin-example-chatserver/src/main/kotlin/io/rouz/grpc/examples/chat/ChatService.kt:79 | `LinkedHashSet.remove` on the registry: never longer than before; `WithoutKeeps` and `WithoutCutsOne` state exactly what is kept |
| Chat.WithoutKeeps | grpc-kotlin-example-chatserver/src/main/kotlin/io/rouz/grpc/examples/chat/ChatService.kt:79 | removal keeps exactly the entries different from the removed one, including other clients with the same name |
| Chat.WithoutCutsOne | grpc-kotlin-example-chatserver/src/main/kotlin/io/rouz/grpc/examples/chat/ChatService.kt:79 | in a registry without repeats, removal cuts out exactly the one position holding the entry and keeps the order |
| Chat.WithoutKeepsDistinct | grpc-kotlin-example-chatserver/src/main/kotlin/io/rouz/grpc/examples/chat/ChatService.kt:37 | removal keeps the registry's channels pairwise distinct |
| Chat.SessionEnd | grpc-kotlin-example-chatserver/src/main/kotlin/io/rouz/grpc/examples/chat/ChatService.kt:77-83 | after the `finally` block the remaining registry sees the channels as the loop left them, and channels outside the registry are as before the session |
| Chat.FanOut | grpc-kotlin-example-chatserver/src/main/kotlin/io/rouz/grpc/examples/chat/ChatService.kt:64-69 | the loop sends to every client with another name in registry order and stops at the first closed recipient; the result is `Deliver`, and nothing outside the registry changes |
| Chat.ChatService.constructor | grpc-kotlin-example-chatserver/src/main/kotlin/io/rouz/grpc/examples/chat/ChatService.kt:37 | the registry starts empty |
| Chat.ChatService.GetNames | grpc-kotlin-example-chatserver/src/main/kotlin/io/rouz/grpc/examples/chat/ChatService.kt:39-43 | one name per registered client in registration order, with a shared name appearing once per client |
| Chat.ChatService.Join | grpc-kotlin-example-chatserver/src/main/kotlin/io/rouz/grpc/examples/chat/ChatService.kt:46-53 | a new unbounded channel is appended under the hello's name, and the hello is sent to nobody |
| Chat.ChatService.Relay | grpc-kotlin-example-chatserver/src/main/kotlin/io/rouz/grpc/examples/chat/ChatService.kt:60-69 | one loop pass: the stamped message reaches the registry as `Deliver` says; it fails exactly when a recipient is closed; unregistered channels are untouched |
| Chat.ChatService.Leave | grpc-kotlin-example-chatserver/src/main/kotlin/io/rouz/grpc/examples/chat/ChatService.kt:77-83 | exactly this session's (name, channel) entry is removed, and its channel is closed unless it already was |
| Chat.ChatService.Cancel | grpc-kotlin-example-chatserver/src/main/kotlin/io/rouz/grpc/examples/chat/ChatService.kt:71-73 | a client's cancel closes its channel and changes only its entry's view; the registry stays as it is |
| Chat.ChatService.ReceiveLoop | grpc-kotlin-example-chatserver/src/main/kotlin/io/rouz/grpc/examples/chat/ChatService.kt:58-76 | the registry's view and the outcome are exactly `Session` of the starting view: relays in arrival order, stopping after the first failing one; hence every client was sent a prefix of its inbox, all of it when the loop ran to the end, which it always does when no registered channel is closed |
| Chat.ChatService.Chat | grpc-kotlin-example-chatserver/src/main/kotlin/io/rouz/grpc/examples/chat/ChatService.kt:45-87 | an empty stream registers nothing; otherwise the registry ends as it began, every other client's view and the session's own channel are exactly what `Session` gives on the registry with the session's entry appended (stopping at the first failed relay), the others got prefixes of their inboxes (in full when nothing was closed), and the session's channel ends closed |
| Chat.ChatService.Shutdown | grpc-kotlin-example-chatserver/src/main/kotlin/io/rouz/grpc/examples/chat/ChatService.kt:89-96 | every registered channel is closed, every other channel is unchanged, and the registry ends empty |
| Chat.ShutdownTwice | grpc-kotlin-example-chatserver/src/main/kotlin/io/rouz/grpc/examples/chat/ChatService.kt:89-96 | a second shutdown changes nothing more |
| InfiniteStream.Personal | grpc-kotlin-test/src/main/kotlin/io/rouz/greeter/InfiniteStreamGreeterImpl.kt:48-50 | the reply "word name" for one subscriber; `Broadcast` appends exactly it to that subscriber's channel |
| InfiniteStream.Pruned | grpc-kotlin-test/src/main/kotlin/io/rouz/greeter/InfiniteStreamGreeterImpl.kt:56-59 | exactly the subscribers whose channel is open remain, each with its own channel |
| InfiniteStream.PrunedAllOpen | grpc-kotlin-test/src/main/kotlin/io/rouz/greeter/InfiniteStreamGreeterImpl.kt:54-55 | a broadcast in which every send succeeds leaves the subscriber map unchanged |
| InfiniteStream.SendStep | grpc-kotlin-test/src/main/kotlin/io/rouz/greeter/InfiniteStreamGreeterImpl.kt:52-61 | a send appends to an open channel; on a closed one the name is removed from the map and the channel stays closed |
| InfiniteStream.MidwayStart | grpc-kotlin-test/src/main/kotlin/io/rouz/greeter/InfiniteStreamGreeterImpl.kt:47 | before any send, every subscriber is pending |
| InfiniteStream.MidwayStep | grpc-kotlin-test/src/main/kotlin/io/rouz/greeter/InfiniteStreamGreeterImpl.kt:47-61 | any pending send can run next, and each one keeps the broadcast invariant with one name fewer pending |
| InfiniteStream.MidwayDone | grpc-kotlin-test/src/main/kotlin/io/rouz/greeter/InfiniteStreamGreeterImpl.kt:47-63 | once nothing is pending, the map is the pruned map |
| InfiniteStream.Broadcast | grpc-kotlin-test/src/main/kotlin/io/rouz/greeter/InfiniteStreamGreeterImpl.kt:45-65 | in any order of sends, every subscriber's channel gets "word name" appended (a closed one is unchanged); exactly the open subscribers remain; no other channel is touched |
| InfiniteStream.InfiniteStreamGreeter.constructor | grpc-kotlin-test/src/main/kotlin/io/rouz/greeter/InfiniteStreamGreeterImpl.kt:34 | no subscribers and no channels at start |
| InfiniteStream.InfiniteStreamGreeter.GreetServerStream | grpc-kotlin-test/src/main/kotlin/io/rouz/greeter/InfiniteStreamGreeterImpl.kt:37-43 | a fresh open channel of capacity 100 is stored under the greeting; a channel stored earlier under that name is dropped from the map but not closed |
| InfiniteStream.InfiniteStreamGreeter.Cancel | grpc-kotlin-test/src/test/kotlin/io/rouz/greeter/ClientAbandonTest.kt:115-119 | a client that disconnects has its channel closed, and the map is not touched |
| InfiniteStream.InfiniteStreamGreeter.SendTo | grpc-kotlin-test/src/main/kotlin/io/rouz/greeter/InfiniteStreamGreeterImpl.kt:52-61 | one launched send as a step of the service, as `SendStep` says |
| InfiniteStream.InfiniteStreamGreeter.GreetAllSubscribers | grpc-kotlin-test/src/main/kotlin/io/rouz/greeter/InfiniteStreamGreeterImpl.kt:45-65 | the service's state after a broadcast is as `Broadcast` says, and every remaining subscriber's channel is open |
| InfiniteStream.SubscribeBothAndGreet | grpc-kotlin-test/src/test/kotlin/io/rouz/greeter/ClientAbandonTest.kt:86-112 | after two subscribe and a broadcast, the map holds both names and each channel holds exactly its own reply |
| InfiniteStream.AbandonAndGreet | grpc-kotlin-test/src/test/kotlin/io/rouz/greeter/ClientAbandonTest.kt:114-134 | after one subscriber disconnects, the next broadcast drops it and reaches only the other |
| InfiniteStream.GreetSole | grpc-kotlin-test/src/test/kotlin/io/rouz/greeter/ClientAbandonTest.kt:129-134 | a broadcast to a sole open subscriber appends its reply and changes nothing else |
| InfiniteStream.ClientAbandon | grpc-kotlin-test/src/test/kotlin/io/rouz/greeter/ClientAbandonTest.kt:81-141 | the keys are {"rouz", "igor"} after the first broadcast and {"rouz"} at the end; "rouz" receives "Hello rouz", then "Hola 0 rouz" … "Hola 3 rouz" in order |
| InfiniteStream.StaleSendDropsResubscriber | grpc-kotlin-test/src/main/kotlin/io/rouz/greeter/InfiniteStreamGreeterImpl.kt:58 | pruning is by name only: a failed send to an abandoned channel removes the name even though it now holds a live second channel, which stays open |
| Generator.MethodContext.MethodNameUpperUnderscore | grpc-kotlin-gen/src/main/java/io/rouz/grpc/kotlin/GrpcKotlinGenerator.java:269-281 | the loop builds the upper-underscore rendering of the whole method name |
| Generator.UpperUnderscoreLength | grpc-kotlin-gen/src/main/java/io/rouz/grpc/kotlin/GrpcKotlinGenerator.java:269-281 | the output is as long as the name plus the number of lower-to-upper boundaries |
| Generator.UpperUnderscoreAt | grpc-kotlin-gen/src/main/java/io/rouz/grpc/kotlin/GrpcKotlinGenerator.java:271-279 | character i appears upper-cased at position i plus the boundaries before it, followed by '_' exactly when a lower-case letter is followed by an upper-case one |
| Generator.UpperUnderscoreHasNoLower | grpc-kotlin-gen/src/main/java/io/rouz/grpc/kotlin/GrpcKotlinGenerator.java:273 | the output holds no lower-case letter |
| Generator.UpperUnderscoreOfUpper | grpc-kotlin-gen/src/main/java/io/rouz/grpc/kotlin/GrpcKotlinGenerator.java:274-277 | a name without lower-case letters renders as itself |
| Generator.UpperUnderscoreIdempotent | grpc-kotlin-gen/src/main/java/io/rouz/grpc/kotlin/GrpcKotlinGenerator.java:269-281 | rendering twice is rendering once |
| Generator.UpperUnderscoreEnd | grpc-kotlin-gen/src/main/java/io/rouz/grpc/kotlin/GrpcKotlinGenerator.java:274 | no underscore is added after the last character |
| Generator.UpperUnderscoreExamples | grpc-kotlin-gen/src/main/java/io/rouz/grpc/kotlin/GrpcKotlinGenerator.java:267-268 | grpc-java's constant names: "sayHello" gives "SAY_HELLO" and "getHTTP" gives "GET_HTTP" |
| Generator.MethodContext.MethodNamePascalCase | grpc-kotlin-gen/src/main/java/io/rouz/grpc/kotlin/GrpcKotlinGenerator.java:283-285 | same length; the first character upper-cased and the rest kept |
| Generator.LowerCaseFirst | grpc-kotlin-gen/src/main/java/io/rouz/grpc/kotlin/GrpcKotlinGenerator.java:163-165 | same length; the first character lower-cased and the rest kept |
| Generator.PascalCaseOfLowerCaseFirst | grpc-kotlin-gen/src/main/java/io/rouz/grpc/kotlin/GrpcKotlinGenerator.java:141 | the Pascal-case name gives back the proto method name exactly when that name does not start with a lower-case letter |
| Generator.CallsMethodName | grpc-kotlin-gen/src/main/java/io/rouz/grpc/kotlin/GrpcKotlinGenerator.java:148-159 | the `ClientCalls` method for the two streaming flags; `CallsMethodNameInjective` shows the four combinations get four different names |
| Generator.CallsMethodNameInjective | grpc-kotlin-gen/src/main/java/io/rouz/grpc/kotlin/GrpcKotlinGenerator.java:148-159 | the four streaming-flag combinations get four different call kinds |
| Generator.MethodContextOf | grpc-kotlin-gen/src/main/java/io/rouz/grpc/kotlin/GrpcKotlinGenerator.java:139-161 | the method context as `methodContext` fills it; `NewMethodContext` builds exactly it |
| Generator.NewMethodContext | grpc-kotlin-gen/src/main/java/io/rouz/grpc/kotlin/GrpcKotlinGenerator.java:139-161 | exactly one of the four tests fires; the context holds the lower-case-first name, the mapped types, the deprecation flag and the call kind; the two streaming flags are copied |
| Generator.ExtractPackageName | grpc-kotlin-gen/src/main/java/io/rouz/grpc/kotlin/GrpcKotlinGenerator.java:100-110 | the `java_package` option when set and non-empty, else the proto package, else ""; `ExtractPackageNameEmpty` states when it is empty |
| Generator.ExtractPackageNameEmpty | grpc-kotlin-gen/src/main/java/io/rouz/grpc/kotlin/GrpcKotlinGenerator.java:100-110 | the package name is empty exactly when neither the `java_package` option nor the proto package is set and non-empty |
| Generator.Replace | grpc-kotlin-gen/src/main/java/io/rouz/grpc/kotlin/GrpcKotlinGenerator.java:211 | every '.' becomes '/' and every other character is kept |
| Generator.ReplaceRoundTrip | grpc-kotlin-gen/src/main/java/io/rouz/grpc/kotlin/GrpcKotlinGenerator.java:211 | on a package name without '/', turning the slashes back into dots gives the package |
| Generator.AbsoluteFileName | grpc-kotlin-gen/src/main/java/io/rouz/grpc/kotlin/GrpcKotlinGenerator.java:210-217 | the path always ends with the file name; it is the file name alone for the empty package, and otherwise the package as a directory, "/" and the file name |
| Generator.AbsoluteFileNameInjective | grpc-kotlin-gen/src/main/java/io/rouz/grpc/kotlin/GrpcKotlinGenerator.java:210-217 | for names without '/', different (package, file) pairs never share a path |
| Generator.GetComments | grpc-kotlin-gen/src/main/java/io/rouz/grpc/kotlin/GrpcKotlinGenerator.java:219-223 | the leading comments when there are any, else the trailing ones; empty exactly when both are |
| Generator.JavaDoc | grpc-kotlin-gen/src/main/java/io/rouz/grpc/kotlin/GrpcKotlinGenerator.java:225-237 | the javadoc is null exactly when the comments are empty |
| Generator.AppendLines | grpc-kotlin-gen/src/main/java/io/rouz/grpc/kotlin/GrpcKotlinGenerator.java:229-230 | the `forEach` appends one line per piece, in order: the prefix, " * ", the piece, and a newline |
| Generator.GetJavaDoc | grpc-kotlin-gen/src/main/java/io/rouz/grpc/kotlin/GrpcKotlinGenerator.java:225-237 | the builder produces the header, one line per piece of the escaped comments split on newlines, and the footer; null for empty comments |
| Generator.JavaDocBlockLines | grpc-kotlin-gen/src/main/java/io/rouz/grpc/kotlin/GrpcKotlinGenerator.java:227-233 | split on newlines, the block is "/**", the opening "<pre>", each comment line behind the prefix and " * ", the closing "<pre>" and the closing marker |
| Generator.ServiceLocationsExact | grpc-kotlin-gen/src/main/java/io/rouz/grpc/kotlin/GrpcKotlinGenerator.java:84-85 | a location is selected as a service exactly when its path has length 2 and starts with the service field number |
| Generator.MethodLocationsExact | grpc-kotlin-gen/src/main/java/io/rouz/grpc/kotlin/GrpcKotlinGenerator.java:124-127 | a location is selected as a method of service s exactly when its path is [service field, s, method field, index] |
| Generator.ServiceLocationsOrder | grpc-kotlin-gen/src/main/java/io/rouz/grpc/kotlin/GrpcKotlinGenerator.java:83-86 | service selection keeps location order |
| Generator.MethodLocationsOrder | grpc-kotlin-gen/src/main/java/io/rouz/grpc/kotlin/GrpcKotlinGenerator.java:123-128 | method selection keeps location order |
| Generator.BuildContext | grpc-kotlin-gen/src/main/java/io/rouz/grpc/kotlin/GrpcKotlinGenerator.java:112-137 | the service named by the location's last index, with one method context per method location of that service, in location order; each context is numbered by its index and carries its javadoc |
| Generator.FindServicesIn | grpc-kotlin-gen/src/main/java/io/rouz/grpc/kotlin/GrpcKotlinGenerator.java:81-94 | one context per service location of the file, in location order |
| Generator.FindServices | grpc-kotlin-gen/src/main/java/io/rouz/grpc/kotlin/GrpcKotlinGenerator.java:78-98 | the contexts of every service location, file by file |
| Generator.ProtosToGenerate | grpc-kotlin-gen/src/main/java/io/rouz/grpc/kotlin/GrpcKotlinGenerator.java:70-72 | only proto files named in files-to-generate are kept |
| Generator.Selected | grpc-kotlin-gen/src/main/java/io/rouz/grpc/kotlin/GrpcKotlinGenerator.java:70-72 | only files named in the list are kept; `SelectedExact` and `SelectedOrder` state exactly which, and in what order |
| Generator.SelectedExact | grpc-kotlin-gen/src/main/java/io/rouz/grpc/kotlin/GrpcKotlinGenerator.java:70-72 | a proto file is scanned exactly when it is in the request and its name is among the files to generate |
| Generator.SelectedOrder | grpc-kotlin-gen/src/main/java/io/rouz/grpc/kotlin/GrpcKotlinGenerator.java:70-72 | the selection keeps request order: selecting from two runs of files selects from each in turn |
| Generator.UtilFile | grpc-kotlin-gen/src/main/java/io/rouz/grpc/kotlin/GrpcKotlinGenerator.java:179-188 | the adapters file at its fixed path; `OutputFileEndings` shows its name ends in "s.kt" |
| Generator.ServiceBaseImplFile | grpc-kotlin-gen/src/main/java/io/rouz/grpc/kotlin/GrpcKotlinGenerator.java:190-198 | the ImplBase file of a service under its package directory; `OutputFileEndings` shows its name ends in "e.kt" |
| Generator.StubExtensionsFile | grpc-kotlin-gen/src/main/java/io/rouz/grpc/kotlin/GrpcKotlinGenerator.java:200-208 | the StubExt file of a service under its package directory; `OutputFileEndings` shows its name ends in "t.kt" |
| Generator.GenerateServiceFiles | grpc-kotlin-gen/src/main/java/io/rouz/grpc/kotlin/GrpcKotlinGenerator.java:167-177 | 1 + 2k files: the adapters file first, then for each service in order its ImplBase file followed by its StubExt file |
| Generator.GenerateFiles | grpc-kotlin-gen/src/main/java/io/rouz/grpc/kotlin/GrpcKotlinGenerator.java:65-76 | the files for the services of exactly the requested proto files, laid out as above |
| Generator.KotlinFileEnding | grpc-kotlin-gen/src/main/java/io/rouz/grpc/kotlin/GrpcKotlinGenerator.java:190-208 | a generated service file's path ends with the last letter of its suffix and ".kt" |
| Generator.OutputFileEndings | grpc-kotlin-gen/src/main/java/io/rouz/grpc/kotlin/GrpcKotlinGenerator.java:179-208 | the adapters, ImplBase and StubExt paths end in "s.kt", "e.kt" and "t.kt" |
| Generator.FileAt | grpc-kotlin-gen/src/main/java/io/rouz/grpc/kotlin/GrpcKotlinGenerator.java:171-174 | every position after the first holds the first or the second file of exactly one service |
| Generator.SameKindDiffer | grpc-kotlin-gen/src/main/java/io/rouz/grpc/kotlin/GrpcKotlinGenerator.java:190-217 | two services that differ in package or name get different paths for the same suffix |
| Generator.OutputNamesDistinct | grpc-kotlin-gen/src/main/java/io/rouz/grpc/kotlin/GrpcKotlinGenerator.java:167-217 | no two generated files share a path, provided no package or service name holds '/' and no two services share both package and name |

## Left out

- Coroutine scheduling, dispatchers and thread pools are not modelled. Every operation is an atomic sequential step, and sessions, launched sends and broadcasts never interleave. `ConcurrentHashMap` and `LinkedHashSet` thread-safety is not modelled either.
- Channels are values in a per-service table, named by their position. Object identity, and aliasing beyond that shared position, are not modelled.
- gRPC transport and framework cancellation are reduced to one environment step that closes a channel (`Cancel` in both services). The receive side of a client is not modelled, apart from `Channel.Receive`.
- The chat hub's distinction between a CANCELLED status and other errors (`ChatService.kt:73-76`) only affects logging and is not modelled. Every way the loop can end runs the same `finally` block.
- Logging, `println`, `printStackTrace` and `invokeOnClose` are not modelled.
- `System.nanoTime` is not modelled. Its two readings are parameters of `CreateMessage`.
- Chat.ChatService.Chat: a session whose inbound stream fails while waiting for the hello registers nothing, the same as an empty stream. Messages sent to the session's own channel by other, interleaved sessions are not modelled.
- InfiniteStream.Broadcast: a send to a full, open channel suspends until the client reads. The model makes this a precondition (`Roomy`: no open subscribed channel is full) rather than modelling the suspension.
- InfiniteStream.InfiniteStreamGreeter.GreetAllSubscribers: same precondition as `Broadcast`. The `startupSync` semaphore is test plumbing and is not modelled.
- Greeter.GreetBidirectional: each reply is sent from its own delayed coroutine, so their relative order on the stream is left open. The model lists the replies in request order and fixes only each reply's content and number.
- Greeter.GreetServerStream: `produce` and `send` are not modelled. The two replies are a sequence.
- Channels.Channel.Receive: kotlinx `receive` suspends on an empty open channel and throws on an empty closed one. The model returns no element in both cases. Only the test clients receive; no service operation uses it, and `SendReceiveCommute` describes the same library behaviour.
- Generator.LowerCaseFirst: requires a non-empty name. The source reads `charAt(0)` and would throw on an empty name, which protoc never sends.
- Generator.MethodContext.MethodNamePascalCase: requires a non-empty method name, for the same reason.
- Generator.NewMethodContext: requires a non-empty method name, for the same reason.
- Generator.FindServices: requires every location index to name an existing service and method, as protoc guarantees; the source would throw otherwise. `FindServicesIn`, `BuildContext` and `GenerateFiles` carry the same precondition.
- Character case is ASCII only. `Character.toUpperCase`, `toLowerCase`, `isLowerCase` and `isUpperCase` on other Unicode letters are not modelled.
- `ProtoTypeMap.of` and `toJavaTypeName` are not modelled; the type mapping is a function parameter. The same goes for Guava's `HtmlEscapers` and the escaper.
- The mustache templates are not part of this model. A file's content is the name of its template plus the context it is applied to. `ProtocPlugin.generate` and the plugin's `main` are not modelled.
- Console clients (`ChatClient.kt`, `ServerStreaminChatClient.kt`), server wiring (`GrpcServer.kt`, `GreeterMain.kt`) and the status-exception tests are not modelled. They are I/O and framework code.
