# Batcher and shredder, modelled in Dafny

Two gateway modules sit on one message bus:

- The **batcher** (`batch.js`) collects the messages of each device. A device is known by its `macAddress`, or by its `deviceId` when it has no MAC address. Once a device's queue holds `batchCount` messages, the batcher publishes them as one frame:
  - the frame's `properties` are those of the last message, marked `batched: true` and optionally rewritten to a publish-as identity;
  - its `content` is the UTF-8 bytes of the JSON text of the queue, with every `Uint8Array` written as an array of byte values.
- On shutdown, `destroy` publishes one frame per non-empty queue.
- The **shredder** (`shred.js`) reverses this. A message whose `properties.batched` is exactly `true` and that has content is parsed. If the content is a JSON array, the shredder publishes each element; otherwise it republishes the message.

The model has three layers:

- **Values** (`Values`, `Json`, `JsonParser`, `Utf8`, `KeyOrder`): the JavaScript values on the bus and the language operations the modules rely on.
  - Truthiness, property reads and in-place property assignment.
  - `in` on a `{}`, which also sees the names `Object.prototype` provides.
  - `Object.keys` order: array-index keys ascending first, then the other keys in creation order.
  - `JSON.stringify` with the module's replacer, `JSON.parse`, and UTF-8 encoding and decoding.
- **Pure functions of the two stages** (`Batch`, `Shred`): the queue table as a map plus the creation order of its keys, `stashMessage` as a function from a table to a new table and an outcome, the frame, the publish-as rewrite, the validation in `create`, and the frames `destroy` drains. For the shredder, `shred` and the messages `receive` publishes.
- **The module objects** (`BatchStage.Batcher`, `ShredStage.Shredder`, `Bus.MessageBus`): classes whose fields are the modules' fields. Their methods change those fields in place and append to the bus. Each method is proved to do what the functions of the second layer describe.

Three further modules relate the layers:

- `BatchRun` follows one device's stream of messages through `stashMessage`.
- `JsonRoundTrip` proves that parsing what the batcher writes gives back what it wrote.
- `Pipeline` proves that every frame the batcher publishes, on a full queue or in `destroy`, comes apart in the shredder into the messages it was built from.

The `deviceId` branch of `stashMessage` (batch.js:87-88) is discussed under Findings. The pure model carries both readings as the `Aliasing` parameter. A `Batcher` object runs the reading it is constructed with.

## Model

| member | source | states |
|---|---|---|
| `Values.LookupAssign` | batch.js:34 | after `props[key] = val`, `key` reads `val` and every other key reads what it did before |
| `Values.AssignKeys` | batch.js:34 | assigning an existing key keeps the key order; a new key is appended at the end |
| `Values.AssignSame` | batch.js:34 | assigning the value a property already holds leaves the object unchanged |
| `Values.UndefinedNotInherited` | batch.js:87 | `"undefined"`, the key an absent identifier is read under, is not a name `{}` inherits |
| `Json.Uint8ArrayFormatter` | batch.js:19-24 | a `Uint8Array` becomes the array of its byte values, in order; any other value is returned unchanged |
| `Json.ReplaceIsJson` | batch.js:104 | after the replacer has run at every node, no typed array is left, and a well-formed value stays well formed |
| `JsonRoundTrip.NumberRoundTrip` | batch.js:104 | an integer's decimal text, followed by any character that may end a value, parses back to that integer |
| `JsonRoundTrip.EscapeRoundTrip` | batch.js:104 | any string, escaped as `JSON.stringify` escapes it, reads back as the same string up to its closing quote |
| `JsonRoundTrip.ValueRoundTrip` | batch.js:104 | the JSON text of any well-formed value without typed arrays parses back to that value and stops where the text ends |
| `JsonRoundTrip.SurrogatePairRoundTrip` | shred.js:15 | for every character outside the Basic Multilingual Plane, the `\u` escapes of its UTF-16 surrogate pair read back as that one character |
| `JsonRoundTrip.SurrogatePairArray` | shred.js:15 | the text `["\ud83d\ude00"]` parses as the array of the one string U+1F600 |
| `JsonRoundTrip.ParseStringify` | shred.js:15 | `JSON.parse(JSON.stringify(v, UInt8ArrayFormatter))` is `v` with every typed array turned into the array of its bytes |
| `Utf8.DecodeEncode` | shred.js:15 | decoding the UTF-8 bytes of a text, as `Buffer.from(text)` writes them, gives back the text |
| `KeyOrder.EnumerationOrderLists` | batch.js:195 | `Object.keys` lists every key of the table exactly once; array-index keys come first, in ascending order |
| `KeyOrder.NoIndicesCreationOrder` | batch.js:195 | when no key is an array index, `Object.keys` lists the keys in creation order |
| `Batch.EmptyTable` | batch.js:64 | the `{}` that `stashMessage` and `create` install is well formed and has no keys |
| `Batch.Identify` | batch.js:68-75 | a message has an identity exactly when its properties carry a truthy `macAddress` or `deviceId`; the identifier is the MAC address if there is one, else the `deviceId` |
| `Batch.Excluded` | batch.js:79 | with no exclusion list nothing is excluded; with an array, the identifier is excluded exactly when some element is strictly equal to it |
| `Batch.ApplyPublishAsReads` | batch.js:29-48 | the rewritten properties read `batched: true`, then the override's `macAddress` alone, or the override's `deviceId` and `deviceKey` together; every other key reads the message's own value |
| `Batch.ApplyPublishAsIdempotent` | batch.js:29-48 | applying the publish-as rewrite twice gives the same properties as applying it once |
| `Batch.Stash` | batch.js:51-126 | a frame is never built from an empty queue |
| `Batch.File` | batch.js:93-120 | the message that completes a frame is the frame's last element |
| `Batch.StashSupplied` | batch.js:56-58 | the call throws `message & batchCount must be supplied` exactly when the message or the count is falsy |
| `Batch.StashPasses` | batch.js:68-125 | the message comes back unchanged exactly when it has no identity or its identifier is excluded; the table is then unchanged, and also when the call throws |
| `Batch.ResolveFresh` | batch.js:90-94 | a new queue is only ever created under a key the table does not yet hold, and never under an inherited name |
| `Batch.FileQueues` | batch.js:93-120 | below the count, the message is appended to its queue and the call returns null; at the count, the queue with the message becomes the frame and the queue is emptied; the push throws exactly when the slot names a key with no queue |
| `Batch.StashQueues` | batch.js:97-120 | when `null` is returned, the message was appended to its device's queue, no other queue changed, and the count was not reached |
| `Batch.StashFlushes` | batch.js:97-117 | when a frame is returned, it holds the device's earlier queue followed by the message, that queue is now empty, no other queue changed, and the count was reached |
| `Batch.FileKeepsValid` | batch.js:93-97 | filing keeps the table well formed; the creation order grows only by a new key |
| `Batch.StashKeepsValid` | batch.js:51-126 | every call keeps the table well formed: each key listed once, no inherited names, and every queued message has a properties object |
| `Batch.CreateFailure` | batch.js:135-177 | `create` logs nothing and succeeds exactly when there is a bus and a configuration with a truthy `batchCount`, and any `publishAsDevice` names a MAC address or both a device id and key |
| `Batch.DrainFrames` | batch.js:195-212 | visiting `n` keys publishes at most `n` frames |
| `Batch.DrainPrefix` | batch.js:215 | draining queues never changes the creation order |
| `Batch.Drained` | batch.js:193-217 | after `destroy` the table has the same keys and every queue is empty |
| `Batch.DrainPrefixQueue` | batch.js:195-216 | after visiting a prefix of the keys, every visited queue is empty, every other queue is as it was, and no key was added or removed |
| `Batch.DrainPrefixAll` | batch.js:195-217 | visiting every key of the table drains it |
| `Batch.DrainPrefixIdle` | batch.js:199 | visiting only empty queues changes nothing |
| `Batch.DrainedValid` | batch.js:191-220 | a drained table stays well formed |
| `Batch.FirstPending` | batch.js:199 | returns a key of the visiting order whose queue is non-empty and before which every queue is empty, so the first such key; there is none exactly when every queue is empty |
| `Batch.WithProperties` | batch.js:31-34 | the message with its properties object replaced has exactly the new properties |
| `Batch.MarkLast` | batch.js:205 | the rewrite touches only the queue's last message, and gives it the publish-as properties |
| `Bus.MessageBus.Publish` | batch.js:184 | `publish` appends the message to what the bus has carried |
| `BatchStage.Batcher.constructor` | batch.js:3-15 | every field of the module object starts out `null`; the object resolves the `deviceId` branch as the given reading says |
| `BatchStage.Batcher.Create` | batch.js:135-177 | returns and logs what `CreateFailure` says. Bus and configuration are always stored, and `excluded` is reset to `[]` first. Once `batchCount` is present, the table is reset and the count and exclusions are installed, even if the publish-as section then fails. `publishAsDevice` is only ever set, never cleared |
| `BatchStage.Batcher.StashMessage` | batch.js:51-126 | returns or throws what `Stash` gives on the current table and leaves the table `Stash` gives. A call that throws for a missing argument leaves the field untouched; other fields are unchanged. The table stays well formed |
| `BatchStage.Batcher.FileMessage` | batch.js:84-120 | creating, pushing and truncating the queue in place leaves the table `File` describes and returns its frame, `null` or `TypeError` |
| `BatchStage.Batcher.Receive` | batch.js:181-186 | the bus gets exactly the truthy value `stashMessage` returned and nothing else; a throw escapes; without a bus, publishing a frame or a passed message throws `TypeError` |
| `BatchStage.Batcher.Destroy` | batch.js:191-220 | with a bus, every queue is emptied and the bus gets one frame per non-empty queue, in `Object.keys` order; with no table nothing happens; without a bus the first non-empty queue throws `TypeError` after its last message's properties were rewritten |
| `BatchStage.Batcher.DrainQueues` | batch.js:195-217 | the `forEach` leaves the drained prefix table and publishes its frames; without a bus it stops at the first non-empty queue, as described for `Destroy` |
| `BatchStage.Batcher.PublishQueues` | batch.js:195-217 | the loop publishes the frames of the keys it visited and leaves their queues emptied; it stops early only without a bus, at a non-empty queue |
| `BatchStage.PublishNext` | batch.js:203-212 | publishing the next non-empty queue's frame extends the bus by exactly that frame |
| `BatchStage.DrainPrefixNext` | batch.js:197-215 | a key not visited yet still holds its original queue, and visiting it empties that queue if it held anything |
| `BatchStage.EnumerationCovers` | batch.js:195 | `Object.keys` of a well-formed table lists each of its keys once and nothing else |
| `BatchStage.MarkLastValid` | batch.js:205 | rewriting the last message's properties in place keeps the table well formed |
| `BatchRun.Run` | test/batch_tests.js:300-303 | a stream of calls yields one outcome per message |
| `BatchRun.StashOfDevice` | batch.js:84-97 | a device's message goes to the device's queue, which is created on its first message |
| `BatchRun.ResolveByMac` | batch.js:84-85 | a message with a MAC address resolves to the MAC address's queue |
| `BatchRun.ResolveById` | batch.js:87-93 | with the `deviceId` branch read as intended, a message with only a `deviceId` resolves to the `deviceId`'s queue |
| `BatchRun.Leftover` | batch.js:100-115 | fewer than `batchCount` messages are left queued |
| `BatchRun.DeviceStep` | batch.js:97-120 | one message of a device is appended below the count, or completes a frame at the count; only the device's queue changes |
| `BatchRun.Periodic` | batch.js:97-120 | a device gets a frame exactly when its queue reaches the count. The frame holds the messages since the previous frame, in arrival order; every other call returns null. What stays queued is the tail that has not filled a frame, and no other queue changes |
| `BatchRun.ElevenMessages` | test/batch_tests.js:255-271 | eleven messages with a count of ten give exactly one frame, the first ten messages, on the tenth call; the eleventh stays queued |
| `BatchRun.DeviceIdAsWrittenThrows` | batch.js:87-88 | as written, for any device known only by its `deviceId` whose queue does not exist yet and any count of at least two: the first message opens the queue, the second throws `TypeError` instead of being queued, and the table keeps only the first |
| `BatchRun.AsWrittenSecond` | batch.js:87-97 | as written, once a `deviceId`-only device has a queue, its next message is looked up under `"undefined"`, throws `TypeError` and changes nothing |
| `BatchRun.DeviceIdIntendedBatches` | batch.js:87-88 | read as intended, a `deviceId`-only device is batched like any other: a frame at every `n`-th message, the tail left queued |
| `Shred.BufferFrom` | shred.js:15 | `Buffer.from` gives a string's UTF-8 bytes and a typed array's own bytes, one byte per element of an array, and throws `TypeError` on null, booleans and numbers |
| `Shred.Shred` | shred.js:8-29 | `null` throws `TypeError`; a message that is not a batched frame with content comes back unchanged. For a batched frame: an error from `Buffer.from` escapes; text that is not JSON throws `SyntaxError`; `null` throws `TypeError`; an array gives its elements; any other value gives the frame back |
| `Shred.ShredText` | shred.js:14-24 | a batched frame whose content is a string is shredded by parsing that very string, with the same four outcomes |
| `Shred.BrokenContentThrows` | test/shred_tests.js:100-103 | the frame with content `{broken:"json"` throws `SyntaxError` |
| `Shred.SurrogatePairShreds` | shred.js:15-23 | a batched frame whose content is `["\ud83d\ude00"]` is shredded into one string holding U+1F600, as `JSON.parse` reads the surrogate pair |
| `Shred.Fanout` | shred.js:46-55 | `receive` publishes the elements of an array, in order, or else the message once |
| `Shred.ShredBytes` | shred.js:9-23 | a batched frame is shredded by parsing the text its content bytes decode to. Text that is not JSON throws `SyntaxError`; `null` throws `TypeError`; an array gives its elements; any other value gives the frame back |
| `Shred.ShredFrame` | shred.js:8-23 | a batched frame whose content is the UTF-8 JSON of a queue shreds back into that queue, with its typed arrays as arrays of bytes |
| `Shred.ContentSurvives` | shred.js:15 | a typed array's bytes, after the replacer, convert back to the same bytes |
| `ShredStage.Shredder.constructor` | shred.js:3-6 | both fields of the module object start out `null` |
| `ShredStage.Shredder.Create` | shred.js:33-38 | `create` stores the bus and the configuration, whatever they are, and returns true |
| `ShredStage.Shredder.Receive` | shred.js:42-56 | the bus gets exactly what `Fanout` gives for `shred`'s result. An error from `shred` escapes before anything is published; without a bus the first publish throws `TypeError` |
| `ShredStage.Shredder.PublishEach` | shred.js:47-49 | the `forEach` publishes the elements in order and nothing else |
| `Pipeline.FrameShreds` | batch.js:100-117 | a frame the batcher builds from well-formed messages shreds into exactly those messages, in order, under any publish-as section; they are the messages as queued, without the `batched` marker the frame's properties got |
| `Pipeline.DrainRepublishes` | batch.js:191-220 | the shredder, fed the frames `destroy` publishes, republishes every queued message, key by key in visiting order and in arrival order within a queue |
| `Pipeline.ContentThroughFrame` | test/combined_tests.js:58-60 | when a queue holds copies of one message, the messages shredded out of its frame have content that reads as the text that message carried |
| `Pipeline.FiveOfOneDevice` | test/combined_tests.js:49-54 | five messages of one device with a count of five give null four times, then the frame of all five |
| `Pipeline.FiveThroughPipeline` | test/combined_tests.js:45-61 | the combined run: the fifth call returns the frame, and the shredder turns it back into five messages whose content reads as the text sent |

## Left out

- Console output: the messages `create` logs are returned by `Batch.CreateFailure` and `BatchStage.Batcher.Create`. The lines `destroy` logs (batch.js:219, shred.js:60) are not modelled.
- The shredder's `destroy` (shred.js:59-61) only logs, so it is not modelled.
- The message bus is a class that records what it is given. Its delivery to other modules is outside the model.
- Aliasing of objects:
  - the model works on values, so the frame's `properties` are a copy, not the same object as the last message's `properties`;
  - the rewrite in `destroy` is modelled only on the table's copy (`MarkLast`).
- BatchStage.Batcher.StashMessage, BatchStage.Batcher.Receive: `applyPublishAsProperties` rewrites the caller's own `message.properties` in place (batch.js:34-43, called at batch.js:107). The model rewrites a copy. So when the same message object is received again after it completed a frame, the model queues it as it was first sent, while the source queues it with `batched: true` already set and, under a publish-as `macAddress`, files it under that MAC address.
- Error messages: a thrown error is modelled by its type only (`SyntaxError`, `TypeError`). The message text, such as the position at test/shred_tests.js:102, is not modelled.
- `JsonParser.BuildObject` keeps an object's keys in the order of the text. `JSON.parse` lists array-index keys first, so `{"b":1,"0":2}` enumerates as `0`, `b` there. The two orders agree on every object without array-index keys.
- `StrictEquals` takes arrays, objects and typed arrays as never strictly equal, because a configuration value is never the very object a message holds.
- Numbers are integers. `JSON.parse` in `JsonParser` refuses fractions and exponents. `Json.Serialize` writes every integer in full, whereas `JSON.stringify` writes integers of 1e21 and above as `1e+21` and rounds integers beyond 2^53 to the nearest double. A `batchCount` or an identifier that is a fraction, `NaN` or an infinity is not modelled; a non-numeric string count converts to no number and never fills a queue.
- `Utf8.Decode` reads every malformed byte as one U+FFFD. This differs from the maximal-subpart rule only on invalid input, which the batcher never writes.
- `JsonParser` reads a `\u` escape of a high surrogate followed by a `\u` escape of a low surrogate as the one character they encode, as `JSON.parse` does. A surrogate escape that is not part of such a pair is refused with `SyntaxError`, whereas `JSON.parse` keeps the lone half in its UTF-16 string; a Dafny `string` cannot hold a lone surrogate, and the batcher's `JSON.stringify` never writes one for a Dafny `string`.
- A Node `Buffer` as a message's content (test/batch_tests.js:276-297) is not a `Values.Value`. `JSON.stringify` calls its `toJSON` before the replacer sees it and writes `{"type":"Buffer","data":[...]}` rather than the array of bytes `Uint8ArrayFormatter` writes for a plain `Uint8Array`. The batcher side of that path is not modelled; the shredder side, `Buffer.from` of that JSON form, is `Shred.BufferFrom`.
- `Shred.BufferFrom` on an object other than the JSON form of a `Buffer` is refused with `TypeError`. The array-like objects `Buffer.from` also accepts are not modelled.
- The exact text at test/batch_tests.js:80 is not evaluated as a constant. The model proves the rule that produces it (`Json.Uint8ArrayFormatter`, `Json.Serialize`) and that the text parses back to the queue (`Shred.ShredFrame`).
- Batch.Stash: its own contract states only that a frame is never empty. What a call does is stated by the lemmas `StashSupplied`, `StashPasses`, `StashFiles`, `StashQueues`, `StashFlushes` and `StashKeepsValid`.
- Batch.File: its own contract states only the frame's last message. `FileQueues` states the rest.
- Batch.DrainFrames: its own contract is a bound only. `DrainFramesNext`, `Destroy` and `DrainRepublishes` state what the frames are.
- BatchRun.Run: its own contract is the number of outcomes only. `Periodic` states what they are.

## Findings

| source | as written | input that shows it | evidently intended | confidence | as-written member | corrected member |
|---|---|---|---|---|---|---|
| batch.js:87-88 | when the message's `deviceId` already has a queue, the identifier is set to `message.properties.macAddress`, which is absent or has no queue, so the push at batch.js:97 throws `TypeError` | any two messages that carry only the same `deviceId`, such as `{properties: {deviceId: "dev1"}}`, with any `batchCount` of 2 or more: the first is queued under `dev1`, the second throws and is lost | file the message under its `deviceId` | not executed | `BatchRun.DeviceIdAsWrittenThrows` | `BatchRun.DeviceIdIntendedBatches` |
