# VitaOxiPad in Dafny

VitaOxiPad turns a PS Vita into a wireless controller. A server on the Vita (C++) samples the controls and
pushes them as UDP datagrams; a client on the PC (Rust) accepts the newest ones and replays them into virtual
input devices. A TCP connection between the two carries a handshake, settings and heartbeats. This project models
that path and proves what it keeps over whole runs.

The modules follow the program:

- `Bytes`, `Reports`: byte strings with their little-endian size prefix and the heartbeat magic; decoded reports.
- `Framing`, `Chunking`, `Connections`: the TCP and UDP stream format, the incremental decoder with its shipped
  size guard and with the exact one, and the `Connection` class around the two buffers.
- `Evdev`: the independent reference for the virtual device, an interpreter of input events with a key set, axes
  and multitouch slots behind a current-slot register, as in the slotted "type B" protocol of the Linux kernel's
  "Multi-touch (MT) Protocol" document, section "Protocol Example B".
- `Buttons`, `Touch`, `Quantise`, `VirtualDevice`: what a report asks for, and the Linux device that turns reports
  into incremental events against remembered state. `Refinement` and `Runs` prove that the events, replayed by
  `Evdev`, show the last report alone; `Shown` says what that is in terms of the report's own fields.
- `Filtering`, `Receiving`, `EndToEnd`, `Streaming`: the timestamp filter, the client's receive loop around decoder
  and device, the main result from datagrams to devices, and its extension back to the server's samples.
- `Peers`, `ServerClient`, `Net`, `NetServer`: the server's `Client` object and network loop, as functions with
  their invariants and as classes proved against them. `Serving` has the exact conditions under which it pushes, drops
  and accepts.
- `Wires`, `Mixtures`, `Sessions`, `Handshakes`: what clients write and what the server makes of it; what a client
  makes of answers that were cut off part-way; any number of clients, their TCP connections and the server as one
  transition system; its runs that complete a handshake and the ones that mislead a client. `Wirings` holds a small
  wire format that meets every assumption made, with a run of either kind.
- `Timing`: the client's heartbeat schedule against the server's cut-off, over the same transition system.
- `Clicks`: touchpad click emulation of the Windows device.

FlatBuffers appears only as parameters: `Codec` and `Encoder` on the client, `Parser` on the server. Clock
readings, socket results, accepted sockets, hash set order and controller readings are inputs that range over
everything.

Where the code falls short of its evident intent, the code is modelled as it is and the exact condition is proved:

- The decoder's guard in `next` lets a frame through that is one byte short, and then panics: `Framing.ShippedGuard`,
  `Chunking.ShippedSplitInvariance`.
- A valid packet without an event ends the loop over `events()` although whole messages may follow, so the result
  depends on how the stream was cut: `Framing.SplitInvariance`.
- A size prefix of zero, and nothing else, stalls the decoder for good: `Framing.ZeroSizeStalls`.
- `remaining_polling_time` clamps an unsigned difference, so an overdue client waits a whole interval more:
  `Peers.RemainingTime`.
- A second handshake on a connection leaves it waiting for good: `Handshakes.StrandedByHandshake`,
  `Handshakes.SecondHandshakeStrands`, `Net.StrandedExactly`, `Net.StrandedForGood`.
- The server retries an answer that failed part-way, and the attempts can add up to a frame the client accepts:
  `Handshakes.SafetyExactly`, `Mixtures.MixesExactly`, `Mixtures.TwoPartialSends`, `Wirings.SafetyCanFail`.
- Quantisation is odd, as inverting an axis needs, only below saturation: `Quantise.Odd`.

The documentation disagrees with the code about the smallest polling interval. The server's constant is 6000
microseconds, the client's own minimum is 4000 (`client/packages/cli/src/main.rs:111`), the usage text says 6000
and a schema comment more than 4500. The model follows the server's code: a smaller interval is ignored there.

## Model

| member | source | states |
|---|---|---|
| Bytes.SmallFirst | client/packages/protocol/src/connection.rs:101-103 | sizes below 256 have their value in the first byte and zeros after it |
| Bytes.OrderFromLast | client/packages/protocol/src/connection.rs:101-103 | sizes are ordered by their last byte, then by the one before, down to the first |
| Bytes.MagicIsNoSize | server/include/heartbeat.hpp:6 | the magic is the greatest size, which no frame of the program has, followed by the letters B and T |
| Framing.ShippedGuard | client/packages/protocol/src/connection.rs:105-109 | `next` with the shipped guard panics exactly on the buffers that are one byte short of a frame, and agrees with the exact guard on all others |
| Framing.NextConserves | client/packages/protocol/src/connection.rs:88-132 | a call leaves the buffer alone and yields no item, or removes exactly one whole leading message of at least 5 bytes and yields its outcome |
| Framing.NextOfFrame | client/packages/protocol/src/connection.rs:101-131 | a whole frame is consumed and the rest kept; it is reported as invalid, yields its event or yields nothing exactly as the codec reads it |
| Framing.SplitSound | client/packages/protocol/src/connection.rs:92-109 | what the decoder takes off a buffer is the encoding of the message it found, followed by the rest |
| Framing.SplitEncode | client/packages/protocol/src/connection.rs:92-109 | a message of any size followed by anything decodes to itself and the rest exactly if its size is positive, fits the prefix and it cannot be mistaken for the magic |
| Framing.SplitStable | client/packages/protocol/src/connection.rs:66-109 | bytes that arrive later never change the message at the front |
| Framing.ProperPrefix | client/packages/protocol/src/connection.rs:92-107 | no proper prefix of a message is a message; the one-byte-short prefix of a frame is the only one the shipped guard admits |
| Framing.ZeroSizeStalls | client/packages/protocol/src/connection.rs:101-107 | `next` never yields or removes anything whatever arrives later, if and only if the buffer begins with a size prefix of zero |
| Framing.ParseSound | client/packages/protocol/src/connection.rs:88-132 | a stream is the encodings of the messages found in it followed by a tail that holds no message |
| Framing.ParseEncodeAll | client/packages/protocol/src/connection.rs:88-132 | parsing inverts encoding for every list of decodable messages and every unfinished tail |
| Framing.ParseAppend | client/packages/protocol/src/connection.rs:66-132 | parsing a prefix and then its tail with the remainder finds the messages of the whole stream |
| Framing.DrainMeans | client/packages/cli/src/main.rs:272 | the event loop over a buffer yields the items of its messages and leaves its tail, if no silent message comes before the last |
| Framing.SplitInvariance | client/packages/protocol/src/connection.rs:66-132 | with the exact guard every chunking of a stream gives the same items and rest as one delivery, if and only if no message without an event is followed by another message |
| Framing.SilenceBreaksSplitting | client/packages/protocol/src/connection.rs:117-131 | for every stream with such a message there is a chunking that gives another result |
| Framing.RoundTrip | client/packages/protocol/src/connection.rs:29-132 | encoding any decodable messages and running the shipped loop over the concatenation yields their items in order and empties the buffer |
| Framing.EventRoundTrip | client/packages/protocol/src/connection.rs:29-132 | the same for events: with an encoder the codec inverts, every list of events comes back unchanged |
| Chunking.SessionPanics | client/packages/protocol/src/connection.rs:105-109 | deliveries to the shipped decoder panic exactly when one of them ends with a tail that is one byte short; otherwise it behaves as the exact one |
| Chunking.TailAt | client/packages/protocol/src/connection.rs:105-109 | a cut of an encoded stream leaves a one-byte-short tail exactly one byte before the end of a frame |
| Chunking.ShippedSplitInvariance | client/packages/protocol/src/connection.rs:66-132 | for all messages and all chunkings of their encoding, the shipped decoder yields every item in order and ends empty if and only if no delivery ends one byte before the end of a frame |
| Connections.Connection.constructor | client/packages/protocol/src/connection.rs:16-21 | both buffers start empty |
| Connections.Connection.SendHandshake | client/packages/protocol/src/connection.rs:29-43 | appends the size-prefixed packet to the outgoing buffer and changes nothing else |
| Connections.Connection.SendConfig | client/packages/protocol/src/connection.rs:45-59 | appends the size-prefixed packet to the outgoing buffer and changes nothing else |
| Connections.Connection.SendHeartbeat | client/packages/protocol/src/connection.rs:61-64 | appends the magic to the outgoing buffer and changes nothing else |
| Connections.Connection.ReceiveData | client/packages/protocol/src/connection.rs:66-68 | appends to the incoming buffer and changes nothing else |
| Connections.Connection.RetrieveOutData | client/packages/protocol/src/connection.rs:70-72 | hands out the whole outgoing buffer and empties it |
| Connections.Connection.Next | client/packages/protocol/src/connection.rs:88-132 | outcome and remaining buffer are those of the function the framing theorems are about, panic included |
| Connections.OutgoingConserved | client/packages/protocol/src/connection.rs:29-72 | over any interleaving of sends and retrievals, the chunks handed out followed by the buffer are the encodings in call order |
| Connections.SentIsParsed | client/packages/protocol/src/connection.rs:29-72 | over any interleaving of sends and retrievals, everything handed out and still buffered parses to the messages of the calls, in call order with nothing left over, if and only if each can be decoded |
| Connections.PacketsAreParsed | client/packages/protocol/src/connection.rs:29-72 | in particular whenever every packet encodes to between 1 and 2^32 - 2 bytes |
| Wires.ConnectionWrites | client/packages/protocol/src/connection.rs:29-72 | the bytes of a client in the session model are those its connection hands out for the same calls |
| Buttons.DpadIsDifference | client/packages/vita_virtual_device/src/virtual_utils.rs:6-18 | through direction and axis values each hat axis is the difference of its two keys, and opposite keys centre both axes |
| Buttons.PressedAreHeld | client/packages/vita_virtual_device/src/virtual_utils.rs:21-51 | a virtual button is in the list exactly if its physical control is held under the trigger setting |
| Buttons.MapButtonInjective | client/packages/vita_virtual_device/src/linux.rs:51-67 | different buttons have different keys |
| Buttons.ProcessTouchReports | client/packages/vita_virtual_device/src/linux.rs:85-100 | the loop returns the actions of the touched zones in order, none without zones |
| Buttons.ApplyActions | client/packages/vita_virtual_device/src/linux.rs:473-484 | touch buttons join the pressed set and the last D-pad action decides the hat |
| Touch.CreateTouchEvents | client/packages/vita_virtual_device/src/linux.rs:676-766 | the two loops over the array of remembered ids emit the specified events, store the ids of this report slot by slot, and return whether a touch with a slot has force |
| Touch.SlotsRefine | client/packages/vita_virtual_device/src/linux.rs:684-749 | if the remembered ids agree with the kernel's slots, replaying the events leaves slot s with report s for every touch that has a slot, every other slot empty, and the ids agreeing again |
| Touch.TouchKeysRefine | client/packages/vita_virtual_device/src/linux.rs:701-763 | afterwards the touch keys are held exactly if a touch with a slot has force, and no press or release was redundant |
| Quantise.Monotone | client/packages/vita_virtual_device/src/lib.rs:38-43 | a greater value never gives a smaller result |
| Quantise.Accuracy | client/packages/vita_virtual_device/src/lib.rs:38-43 | the result is a 16-bit integer within half a step of the exact value, and within one step exactly above 32767.5 |
| Quantise.Odd | client/packages/vita_virtual_device/src/lib.rs:38-43 | on a symmetric range the conversion is odd if and only if the scaled magnitude is below 32767.5 |
| Quantise.EndsOfRange | client/packages/vita_virtual_device/src/lib.rs:38-43 | the ends of a range map to -32768 and 32767, and an empty range to 0 |
| VirtualDevice.InvertedAxes | client/packages/vita_virtual_device/src/linux.rs:646-655 | an inverted motion axis is the exact negation of the plain one if and only if the input is below saturation |
| VirtualDevice.Enumerate | client/packages/vita_virtual_device/src/linux.rs:487-495 | collecting a set difference lists each element once, in an order left open |
| VirtualDevice.VitaDevice.constructor | client/packages/vita_virtual_device/src/linux.rs:357-370 | a new device remembers nothing pressed, a centred hat, empty slots and no touch |
| VirtualDevice.VitaDevice.SetConfig | client/packages/vita_virtual_device/src/linux.rs:438-452 | settings that are present replace the current ones, absent ones stay |
| VirtualDevice.UpdatesItsOwn | client/packages/vita_virtual_device/src/linux.rs:438-452 | each setting changes its own part of the configuration only, and settings given together act like one after the other |
| VirtualDevice.VitaDevice.SendReport | client/packages/vita_virtual_device/src/linux.rs:454-643 | for every hash set order, the events written and the memory left are among those the refinement theorems speak of |
| Refinement.KeysRefine | client/packages/vita_virtual_device/src/linux.rs:486-524 | for every order of the two set differences the events turn the keys of the old button set into those of the new one, with no redundant press or release |
| Refinement.PadRefines | client/packages/vita_virtual_device/src/linux.rs:454-575 | after the main events the pad holds the keys, sticks and hat of this report and the keyboard holds nothing |
| Refinement.TouchpadRefines | client/packages/vita_virtual_device/src/linux.rs:577-625 | the touchpad device shows the touches of the selected panel, and memory agrees with it again |
| Refinement.MotionAxes | client/packages/vita_virtual_device/src/linux.rs:646-665 | the sensor device ends with each motion value on its own axis, two of them exchanged and three inverted |
| Refinement.ReportRefines | client/packages/vita_virtual_device/src/linux.rs:454-643 | from any agreeing state and in any emission order, the kernel's devices show exactly what this report asks for, and agreement holds again |
| Shown.KeyOfButton | client/packages/vita_virtual_device/src/linux.rs:51-67 | a button has a key if and only if the table from kernel keys back to buttons says so, for all thirteen buttons |
| Shown.KeysShown | client/packages/vita_virtual_device/src/virtual_utils.rs:21-51 | a kernel key is asked for if and only if its physical control is held under the trigger setting, or a touch lies at its (x, y) in a zone with the button of that key |
| Shown.HatShown | client/packages/vita_virtual_device/src/linux.rs:459-484 | the last rear touch in a D-pad zone decides the hat, else the last front one, else the four keys, with right and down positive |
| Shown.TouchesShown | client/packages/vita_virtual_device/src/linux.rs:577-625 | touch s of the selected panel fills slot s with its id, x, y and force, 6 slots in front and 4 in the rear, and the touch keys are held if and only if one of them has force |
| Shown.MotionShown | client/packages/vita_virtual_device/src/linux.rs:646-665 | each sensor axis is within a step of 32768 steps for 4 or 35 units of its own, possibly inverted, motion value, and saturated outside |
| Shown.ReportShows | client/packages/vita_virtual_device/src/linux.rs:454-643 | from any agreeing state and in any emission order the kernel's devices show the report field by field, with none of the device's own functions in the statement |
| Shown.VolumeShown | client/packages/vita_virtual_device/src/linux.rs:539-547 | a report taps exactly the volume keys whose buttons it holds, one press and one release each |
| Shown.HatOnlyOnChange | client/packages/vita_virtual_device/src/linux.rs:526-537 | a report writes a hat axis if and only if it differs from the report before |
| Shown.SlotsAddressed | client/packages/vita_virtual_device/src/linux.rs:684-749 | a report addresses a slot if and only if one of its touches fills it or it ends the touch that did |
| Runs.RunRefines | client/packages/vita_virtual_device/src/linux.rs:438-643 | over any run of reports and configuration changes the devices show what the last report asked for under the configuration in force then |
| Runs.HistoryIndependence | client/packages/vita_virtual_device/src/linux.rs:454-643 | two runs of any length and emission order whose last reports ask for the same leave the same observable state |
| Runs.RunIsClean | client/packages/vita_virtual_device/src/linux.rs:486-524 | over any run no event presses a key that is down or releases one that is up |
| Runs.KeysAlternate | client/packages/vita_virtual_device/src/linux.rs:486-763 | over any run the presses and releases of every key, touch keys included, strictly alternate and start with a press |
| Filtering.ForwardsRecords | client/packages/cli/src/main.rs:274-287 | the forwarded reports are exactly the strict left-to-right maxima of the timestamps, starting from 0 |
| Filtering.NewestIsLast | client/packages/cli/src/main.rs:274-287 | the last report forwarded is the newest one received |
| Filtering.LosslessInOrder | client/packages/cli/src/main.rs:274-287 | reports that arrive in increasing time are all forwarded |
| Filtering.Sampler.constructor | server/src/ctrl.cpp:33 | the first sample has to be newer than 1024 |
| Filtering.Sampler.GetCtrl | server/src/ctrl.cpp:31-51 | a successful call returns the first reading newer than the last sample and records it; a failed one changes nothing |
| Filtering.SamplesIncrease | server/src/ctrl.cpp:33-50 | successful samples strictly increase |
| Filtering.EverySampleIsForwarded | client/packages/cli/src/main.rs:274-287 | the filter forwards every report of a list stamped as the sampler stamps them |
| Receiving.HandledAppend | client/packages/cli/src/main.rs:272-291 | handling items in two stretches has the effect of handling them in one: filter, memory and events compose |
| Receiving.Receiver.HandleItem | client/packages/cli/src/main.rs:274-290 | a pad report newer than all before goes to the device and advances the filter; anything else changes nothing |
| Receiving.Receiver.HandleEvents | client/packages/cli/src/main.rs:272-291 | the loop handles exactly the items of the decoder's drain, and the device gets exactly the reports the filter lets through |
| Receiving.Receiver.OnDatagram | client/packages/cli/src/main.rs:256-291 | one iteration on received data is a step of the end-to-end theorem; an empty datagram changes nothing |
| EndToEnd.TraceMeans | client/packages/cli/src/main.rs:226-294 | between datagrams the decoder's buffer is empty and exactly the messages received so far have been handled |
| EndToEnd.NewestReportShows | client/packages/cli/src/main.rs:256-291 | after every run of datagrams, however lost, repeated or reordered, keys, hat, sticks, slots, touch keys and motion show what the newest report received asks for |
| Shown.NewestReportShowsFields | client/packages/cli/src/main.rs:256-291 | the same field by field: after every run of datagrams each key, axis and slot is that of the newest report's own controls |
| EndToEnd.OrderAndLossDoNotShow | client/packages/cli/src/main.rs:272-287 | two clients that received different parts of one stream in different orders show the same devices as soon as their greatest timestamps agree |
| Streaming.PushesSelect | server/src/net.cpp:207-352 | over every run of the server the reports pushed are some of the samples, each at most once and in order |
| Streaming.PushesIncrease | server/src/ctrl.cpp:33-50 | if no sampling fails, pushed reports are stamped in strictly increasing time |
| Streaming.EveryPushReachesDevice | client/packages/cli/src/main.rs:256-291 | over an in-order lossless channel decoder, filter and device handle every pushed report, exactly once and in order |
| Streaming.ChannelDoesNotShow | client/packages/cli/src/main.rs:256-291 | two clients that received different parts of what one server run pushed, in different orders, show the same devices as soon as their greatest timestamps agree |
| Peers.RemainingTime | server/include/client.hpp:89-93 | the remaining time is the intended one if and only if the client is not overdue; an overdue one gets a whole interval |
| Peers.HandlersConsume | server/include/client.hpp:105-138 | a handler that reports success removed at least one byte from the front; one that does not leaves the buffer alone or clears it |
| Peers.DrainConserves | server/src/net.cpp:43-44 | the drain loop ends, conserves bytes, and stops only where neither handler can go on |
| Peers.BufferConserved | server/include/client.hpp:95-178 | over any run of receives and handlers the accepted bytes are the consumed ones followed by the buffer, until it is cleared, and the buffer never exceeds one mebibyte |
| Peers.PollingTimeKept | server/include/client.hpp:156-163 | no packet brings the polling interval below 6000 microseconds |
| Serving.AddedExactly | server/include/client.hpp:95-103 | bytes are appended if and only if they fit in one mebibyte; bytes that do not cost the whole buffer |
| Serving.DisconnectsExactly | server/src/net.cpp:32-54 | a receive disconnects if and only if the peer closed or reset the connection or the bytes do not fit |
| Serving.BadPacketStops | server/include/client.hpp:116-124 | a packet that fails verification costs the whole buffer, one of an unhandled kind nothing, and both stop the drain loop |
| Serving.LeavesTheEnd | server/src/net.cpp:32-54 | what a receive leaves in the buffer is the end of what was there and arrived, and no handler can go on with it |
| ServerClient.Client.constructor | server/include/client.hpp:63-68 | a new client waits for a handshake, with an empty buffer, the minimal interval and fresh timers |
| ServerClient.Client.AddToBuffer | server/include/client.hpp:95-103 | appends, or clears the buffer and fails if it would exceed its limit |
| ServerClient.Client.HandleHeartbeat | server/include/client.hpp:165-178 | removes a leading magic and renews the heartbeat time, or changes nothing |
| ServerClient.Client.HandleData | server/include/client.hpp:105-163 | dispatches a packet and removes its computed size, clears an unverifiable buffer, or changes nothing |
| ServerClient.Client.HandleIngoingData | server/src/net.cpp:32-54 | the receive loop and the drain loop leave the client in the state the session theorems assume, or ask to disconnect |
| ServerClient.Client.IsPollingTimeElapsed | server/include/client.hpp:89 | true exactly if more than the interval passed, in unsigned 64-bit arithmetic |
| Net.AlwaysConsistent | server/src/net.cpp:207-360 | in every reachable state there is a client exactly if epoll holds its entry, a connected client has a data port and no write interest, and interval and buffer keep their limits |
| Net.InterestDroppedByResponse | server/src/net.cpp:296-316 | write interest is dropped, and a client becomes connected, only by the step that sent the whole response to its handshake |
| Net.StrandedExactly | server/include/client.hpp:140-154 | for any parser and any bytes, a connected client is left waiting without write interest if and only if the drain loop meets a handshake packet |
| Net.StrandedForGood | server/src/net.cpp:290-322 | no possible step connects such a client again or pushes a pad to it |
| Net.RateAlways | server/src/net.cpp:333-343 | over every run with a clock that does not go back, each push to a connection comes later after the one before it than the polling interval then in force, which is at least 6000 microseconds |
| Net.NextPushWaits | server/include/client.hpp:85-89 | the next push of any run waits, after the last one to its connection, for more than the interval its client has been given by then |
| Net.RateLimit | server/include/client.hpp:85-89 | n pushes to one connection inside a window of W microseconds imply (n - 1) * least < W for every lower bound of the intervals in force, and (n - 1) * 6000 < W whatever they are |
| Serving.PushedExactly | server/src/net.cpp:328-343 | an iteration pushes if and only if its client was heard from within 26 seconds, is connected, was not pushed to for longer than its interval, pad mode is on and the socket is open; then its own sample to the client's port |
| Serving.DueIsPushed | server/src/net.cpp:325-352 | over every run with a clock that does not go back, the end of an iteration adds such a push if and only if there is a client and it is due |
| Serving.NextTimeout | server/src/net.cpp:333-359 | the next wait takes what is left of the interval, all of it if that has passed, in 32 bits; as long as before after a drop or a failed push |
| Serving.DroppedExactly | server/src/net.cpp:207-360 | a step drops the client if and only if the network went down, the socket hung up, the peer closed or reset or overflowed, its answer was reset, or 26 seconds passed |
| Serving.AlwaysDroppedExactly | server/src/net.cpp:207-360 | the same over every run with a clock that does not go back |
| Serving.ChangesExactly | server/src/net.cpp:244-359 | any step but a receive leaves a client it keeps as it was, except that the whole answer connects a waiting client and a push is recorded |
| Serving.DownMeans | server/src/net.cpp:235-241 | when the network goes down the client and its epoll entry are gone and the next wait takes a second |
| Serving.AcceptedExactly | server/src/net.cpp:87-115 | a newcomer becomes the client if and only if there is none, with every field fresh; one that is refused changes nothing |
| NetServer.SendAll | server/src/net.cpp:16-30 | a positive result means the whole buffer went out in order; otherwise only a proper prefix of a non-empty buffer did |
| NetServer.NetThread.constructor | server/src/net.cpp:170-192 | the loop starts without a client and with the minimal timeout |
| NetServer.NetThread.DisconnectClient | server/src/net.cpp:74-85 | the client and its epoll entry go together |
| NetServer.NetThread.AddClient | server/src/net.cpp:87-105 | an accepted socket becomes the client with write interest; a failed accept changes nothing |
| NetServer.NetThread.Respond | server/src/net.cpp:296-317 | a waiting client is connected by a full send, dropped by a reset and otherwise unchanged |
| NetServer.NetThread.HandleEvent | server/src/net.cpp:245-323 | one event of a batch has the effect the invariants are proved about |
| NetServer.NetThread.HandleBatch | server/src/net.cpp:244-323 | the loop over a batch composes the effects of its events in order |
| NetServer.NetThread.FinishIteration | server/src/net.cpp:325-359 | expiry, push and next timeout are those the rate limit is proved about |
| NetServer.NetThread.Iterate | server/src/net.cpp:207-360 | one turn of the main loop is its network check, its batch and its end, in this order |
| NetServer.TurnIsRun | server/src/net.cpp:207-360 | every turn of the loop is a stretch of a run, so what holds of all runs holds of the loop |
| Wires.DrainAligned | server/src/net.cpp:43-44 | on a batch that ends on a message boundary the server handles exactly the messages sent, in order, and empties its buffer |
| Wires.IngoingAligned | server/src/net.cpp:32-54 | the same for any way the batch was cut into receives |
| Mixtures.PartialResponseFails | client/packages/cli/src/main.rs:157-172 | a client that reads any proper prefix of the response does not pass its handshake wait |
| Mixtures.PassesExactly | client/packages/cli/src/main.rs:157-172 | a client passes its wait if and only if a whole frame stands at the front of its one read and the codec reads it as a handshake |
| Mixtures.MixesExactly | server/src/net.cpp:290-316 | some read of the bytes that failed attempts left lets the client pass, if and only if they form, within one read, a frame that the codec takes for a handshake |
| Mixtures.AfterSizePrefix | server/src/net.cpp:299-310 | after a first attempt of at least four bytes the client passes if and only if a whole frame of bytes was written and the codec accepts the payload completed with later bytes |
| Mixtures.BeforeSizePrefix | server/src/net.cpp:299-310 | after a shorter first attempt the client passes if and only if the scrambled prefix is followed by as many bytes as it says and the codec accepts those |
| Mixtures.TwoPartialSends | server/src/net.cpp:299-310 | two attempts of a and b bytes, a at least four, let the client pass if and only if a + b reaches the frame and the codec accepts the mixture |
| Mixtures.LittleDoesNotMix | server/src/net.cpp:299-310 | whatever the codec accepts, attempts that together wrote less than a frame of up to 65539 bytes never form a handshake, wherever they were cut |
| Sessions.AlwaysOk | server/src/net.cpp:207-360 | the invariant that ties the server's view of its client to the client's own history holds in every reachable state of the whole system |
| Sessions.SessionSafety | client/packages/cli/src/main.rs:141-173 | in every run of any number of clients, with answers failing part-way anywhere and any number of times, a client past its wait belongs to a connection on which the server reached Connected, or its failed answers form a handshake and, for a response that fits one read, wrote at least as much as one; and every pad pushed to a connection went to the port announced in its handshake |
| Sessions.NeverRegresses | server/include/client.hpp:59-74 | while a connection of the repository's client lasts, its server state never goes back |
| Sessions.ServerRuns | server/src/net.cpp:207-360 | seen from the server, every run of the system is a run of its loop, so the rate limit holds in it |
| Sessions.SettingsSlowPads | server/include/client.hpp:156-163 | in every run a pad is pushed only after more than the interval of the last settings the server took from the client has passed since the pad before |
| Mixtures.ResponsePasses | client/packages/cli/src/main.rs:163-174 | a client that reads the whole response passes and learns the heartbeat interval |
| Handshakes.HandshakeCompletes | client/packages/cli/src/main.rs:141-173 | a run exists for every client and port that ends with both sides connected and the client's port as the target of pads |
| Handshakes.MixtureMisleads | server/src/net.cpp:290-316 | for any cuts that form a handshake there is a run in which a client passes its wait although the server never connected it |
| Handshakes.SafetyExactly | client/packages/cli/src/main.rs:141-173 | in all runs every client past its wait is connected, if and only if no cuts of the response form a handshake |
| Handshakes.StrandedByHandshake | server/include/client.hpp:140-154 | a batch of whole messages strands a connected client if and only if a handshake is among them |
| Handshakes.SecondHandshakeStrands | server/src/net.cpp:290-322 | a client that has just completed its handshake and sends another one is stranded |
| Wirings.WiringExists | client/packages/protocol/src/connection.rs:29-59 | there is a wire format that meets every assumption made about encoder, parser and codec, and reads its response as a handshake |
| Wirings.SmallSessionsComplete | server/src/net.cpp:56-72 | in that format handshakes complete and the client learns the 25 seconds |
| Wirings.SafetyCanFail | server/src/net.cpp:299-310 | in that format answers cut off after 12 bytes and then after 1 mislead a client, so its runs are not all safe |
| Wirings.SmallClientIsPunctual | client/packages/cli/src/main.rs:173-250 | in that format there is a run that meets every assumption of `Timing.NeverCutOff`, with a client that stays connected |
| Timing.HeartbeatTimer.constructor | client/packages/cli/src/main.rs:173-184 | the schedule starts at the time the handshake ended |
| Timing.HeartbeatTimer.Turn | client/packages/cli/src/main.rs:226-250 | one turn asks for the specified timeout and sends exactly if the floored elapsed time reached the interval less five seconds |
| Timing.SendGaps | client/packages/cli/src/main.rs:226-250 | over any run with early wake-ups at any time, a wait returns at most max(f - 4, f - 5 + work) seconds plus jitter after the last heartbeat, and gaps lie between f - 5 seconds and that bound plus the work around both writes |
| Timing.CountsFromStamp | client/packages/cli/src/main.rs:243-249 | the seconds are counted from the reading taken after the last heartbeat was written |
| Timing.BoundReached | client/packages/cli/src/main.rs:228-241 | the second lost to flooring is real: a run reaches the bound exactly |
| Timing.CutOff | server/src/net.cpp:325-331 | the server drops a client exactly if its last heartbeat was handled 26 seconds ago or more |
| Timing.BatchBeats | server/include/client.hpp:165-178 | a batch renews the client's time exactly if a heartbeat is among its messages |
| Timing.TimeAlways | server/include/client.hpp:165-178 | in every run with one clock no heartbeat is handled before it was sent, and the record of a client is no older than its last heartbeat handled |
| Timing.NeverCutOff | server/src/net.cpp:325-331 | in every run of the system whose client sends heartbeats on a paced schedule, with work, jitter, setup and delivery inside the slack, no end of an iteration drops the client |
| Timing.SlackAtTwentyFive | server/src/net.cpp:13 | for the announced 25 seconds the slack is five seconds, exactly |
| Clicks.VitaDevice.constructor | client/packages/vita_virtual_device/src/windows.rs:166-171 | a new device is not touched and has no start time |
| Clicks.VitaDevice.SendReport | client/packages/vita_virtual_device/src/windows.rs:280-307 | touch state, start time and click of one report are those the run theorems are about |
| Clicks.HoldMeans | client/packages/vita_virtual_device/src/windows.rs:292-307 | over any run a start time is set exactly while the touchpad is touched, and it is the time the current touch began |
| Clicks.ClickEndsShortEpisode | client/packages/vita_virtual_device/src/windows.rs:293-303 | a report clicks if and only if it ends a maximal touch shorter than 150 milliseconds |
| Clicks.ReportClicksExactly | client/packages/vita_virtual_device/src/windows.rs:280-307 | over any run of reports and configurations, a report clicks if and only if it ends a maximal stretch, shorter than 150 milliseconds, of reports with a touch on the panel configured as touchpad, the front one first |
| Clicks.ClicksAreShortEpisodes | client/packages/vita_virtual_device/src/windows.rs:281-307 | over any run clicks and ended short touches correspond one to one |

## Left out

- FlatBuffers tables, verification and builders: codec, encoder and parser are function parameters with the hypotheses stated where they are used.
- The R-tree of touch zones: zone lookup is any function from a point to an action.
- Event timestamps and the synchronisation markers between batches of events: the interpreter takes each event at once.
- Failing writes to uinput: `previous_buttons` is committed before the write (`client/packages/vita_virtual_device/src/linux.rs:524`), so after a failed write memory and kernel would disagree.
- Floating-point rounding and NaN in `f32_to_i16`: arithmetic is over the reals; an empty range gives 0 as the cast of NaN does.
- Touchpad resolution, calibration and the extra axes set up with the devices: only the declared keys and axes that events can reach are modelled.
- EndToEnd.TraceMeans: assumes that a datagram holds one whole message and fits the receive buffer of 2048 bytes, as the server sends them, and that the TCP read left nothing in the decoder's buffer.
- ServerClient.Client.HandleData: on an empty buffer it returns false; the source reads a packet header from it.
- Sessions.SessionSafety: assumes that received batches end on message boundaries, because the server looks at the head before verifying it and clears the buffer when verification fails; and that frames are shorter than 2^32 - 1 bytes.
- Sessions.NeverRegresses: holds for clients that send one handshake, as the repository's client does; for others see `Handshakes.StrandedByHandshake`.
- NetServer.NetThread.FinishIteration: the source goes on to use the client it reset after a timeout (`server/src/net.cpp:328-334`); here the iteration ends. In the same way a write event without a client does nothing, where the source reads its state (`server/src/net.cpp:296`).
- NetServer.SendAll: assumes that a send takes at least one byte or fails.
- Accepted sockets carry names that are never reused, where the source reuses file descriptors.
- Error codes of sockets: a receive ends by blocking, closing, reset or another error, a send succeeds, is reset or fails otherwise. "Reset" stands for the test against `SCE_NET_ECONNRESET` (`server/src/net.cpp:282` and `307`); the codes around it are of the `SCE_NET_ERROR_` kind (`server/src/net.cpp:48`), so an actual reset may well take the branch of the other errors. No result depends on which.
- Filtering.Sampler.GetCtrl: assumes that some later reading is newer than the last sample; the source loops until there is one, and ignores failures inside the loop.
- Net.RateAlways and the timing results assume clocks that do not go back; `Timing.NeverCutOff` also assumes that client and server read one clock, and that a heartbeat written more than a given delay before a check has been handled by then.
- Streaming.PushesIncrease: assumes that no sampling fails; after a failure the server pushes its last sample again under the same timestamp, with the battery level of the moment, and the client drops it.
- The client's first heartbeat goes over UDP and the server never reads that socket; it renews nothing and is not part of the timing model.
- Button masks, volume keys, trigger bytes and touch points of the Windows report: stateless conversions into a library's report type.
- `client/packages/protocol/src/codec.rs`, a second decoder behind a feature flag that does not reset its stored size after a frame.
- Drawing, the status thread, event flags, the main UI loop, screen toggling, the kernel module, configuration files, command-line parsing, logging and build scripts.
