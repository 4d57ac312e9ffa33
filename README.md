# xwax JACK backend, modelled in Dafny

This project models the JACK audio backend of xwax (`jack.c`) and proves
properties of that model. The backend connects xwax's decks to a JACK
audio server:

- Decks are turntable-like devices, each with a timecoder and a player.
- Initialising a deck (`jack_init`) opens one process-wide JACK client, but only while there is none yet.
- It then registers the deck's two input ("timecode") and two output ("playback") ports.
- Last, it appends the deck to a registry of at most four decks.
- On every audio cycle, the process callback (`process_callback`) runs `process_deck` on each registered deck in registration order.
- `process_deck` fetches the deck's input buffers and interleaves them into 16-bit fixed-point samples. It hands these to the timecoder, if the deck has one.
- It then lets the player render into the same buffer, and uninterleaves the result into the deck's output buffers.

The model has five modules:

- `Layout` (layout.dfy): the interleaved sample layout, `interleave` and `uninterleave`.
  - Both are in-place loops over arrays.
  - Each is proved against the functions `Interleaved` and `Channel`.
  - The model proves both round trips between those two functions.
- `Ports` (ports.dfy): port names and the registration schedule of `register_ports`.
  - The model proves the schedule's order and names.
  - It proves which ports are granted before the first refusal.
- `Events` (events.dfy): the calls the backend makes into JACK, the timecoder and the player, as events of a ghost trace.
  - The calls of `start_jack_client` and `jack_init`.
  - The calls of `process_deck` and of one cycle.
- `Cycle` (cycle.dfy): what one cycle does to the contents of the port buffers, deck by deck.
- `JackBackend` (jack.dfy): the module globals `client`, `rate`, `decks` and `device[MAX_DECKS]` as the class `Jack`, with the registry invariant `Valid`.
  - The class also holds the server's list of registered ports; a port's handle is its position in that list.
  - The methods follow the C functions `start_jack_client`, `register_ports`, `jack_init`, `start`, `process_deck` and `process_callback`.

The JACK server is not part of the model. What it answers is passed in as arguments:

- A `Server` says whether the client opens, whether the process callback is accepted, the sample rate and which port registrations are granted.
- `buffers` are the port buffers of a cycle, indexed by port handle.
- `rendered` is what each player renders.
- `allocates` says whether `malloc` succeeds.

Every call into JACK, the timecoder or the player is recorded in the ghost `trace`.

Points of the code's behaviour that the model keeps:

- A failed `jack_client_open` leaves `client` NULL, so the next `jack_init` tries again. `JackBackend.Jack.JackInit` ensures that `client` is set afterwards exactly when it was set before or the open succeeded. `Events.InitOpensOnlyWithoutClient` shows that an init opens a client exactly when there is none. `Events.OpenFailureStopsInit` shows that a failed open ends the init after the open.
- A refused `jack_set_process_callback` leaves `client` set (jack.c:138, 147-150). Every later `jack_init` then skips set-up, so the callback is never installed and the sample rate is never read (`Events.CallbackRefusalSticks`, `JackBackend.Jack.StartJackClient`).
- `start` calls `jack_activate` on every call, although its comment (jack.c:196) speaks of the first call. `JackBackend.Jack.Start` records an `Activate` each time.
- The cast at jack.c:52 truncates and is undefined out of range. Both conversions are left uninterpreted (`toShort`, `toFloat`).
- `jack_init` returns 0 or -1, not the deck's position in the registry.

A deck may be initialised twice with the same device record, since nothing in the code prevents it. The registry then holds two entries that share the device and its latest ports. `Cycle.LastEntry` handles this: only the last of those entries determines what ends up in the output buffers.

## Model

| member | source | states |
|---|---|---|
| Layout.Frame | jack.c:51-55 | one frame: one converted sample per channel, channels in order |
| Layout.Interleaved | jack.c:46-57 | the interleaved buffer of the first `n` frames: frame after frame, `2*n` samples |
| Layout.Channel | jack.c:62-73 | channel `c` of the first `n` frames of an interleaved buffer, converted back: `n` samples |
| Layout.InterleavedAt | jack.c:50-55 | sample `2*f + c` of the interleaved buffer is channel `c` of frame `f`, converted |
| Layout.InterleavedPrefix | jack.c:50-56 | interleaving fewer frames writes a prefix of the same buffer |
| Layout.InterleavedLocal | jack.c:50-56 | interleaving reads only the first `n` frames of each channel |
| Layout.ChannelAt | jack.c:66-71 | frame `f` of uninterleaved channel `c` is sample `2*f + c`, converted |
| Layout.ChannelLocal | jack.c:66-72 | uninterleaving reads only the first `2*n` samples |
| Layout.RoundTrip | jack.c:46-73 | uninterleaving an interleaved buffer gives every channel back in frame order, each sample passed through both conversions |
| Layout.RoundTripExact | jack.c:46-73 | when `toFloat` undoes `toShort`, the round trip is the identity on each channel |
| Layout.ReverseRoundTrip | jack.c:46-73 | interleaving uninterleaved channels gives back the first `2*n` samples, passed through both conversions |
| Layout.Interleave | jack.c:46-57 | the first `2*nframes` entries of `buf` become the interleaved channels; nothing past them is written |
| Layout.PackFrame | jack.c:51-55 | one pass of the inner loop appends one frame to the interleaved prefix and writes nothing past it |
| Layout.Uninterleave | jack.c:62-73 | the first `nframes` samples of each channel buffer become that channel of `buf`, converted; the rest of each buffer is unchanged |
| Layout.UnpackFrame | jack.c:67-71 | one pass of the inner loop stores frame `f` into every channel buffer |
| Layout.StoreSample | jack.c:68-70 | one store writes sample `f` of channel `n` and no other channel buffer |
| Layout.UnpackedChannel | jack.c:66-72 | a fully unpacked channel buffer holds that channel of `buf` followed by its old tail |
| Ports.Infix | jack.c:171-179 | the infix of an input port is `_timecode_`, of an output port `_playback_`, both of 10 characters |
| Ports.PortName | jack.c:171-179 | a port name is the deck name, the infix and the channel label |
| Ports.PortNameParts | jack.c:171-179 | a port name starts with the deck name, continues with the direction's infix and ends in `L` or `R` |
| Ports.PortNameFits | jack.c:167-171 | the name and its NUL fit the 32-byte `port_name` exactly when the deck name has at most 20 characters, counting one byte per character |
| Ports.PortNamesDistinct | jack.c:171-179 | two ports of one deck with the same name are the same port |
| Ports.Schedule | jack.c:170-186 | register_ports asks for four ports |
| Ports.ScheduleOrder | jack.c:170-186 | the order is input-L, output-L, input-R, output-R, named `<deck>_timecode_L`, `<deck>_playback_L`, `<deck>_timecode_R`, `<deck>_playback_R` |
| Ports.ScheduleAt | jack.c:170-186 | entry `2*c` is channel `c`'s input port, entry `2*c + 1` its output port |
| Ports.ScheduleDistinct | jack.c:170-186 | the four ports are pairwise different, and so are their names |
| Ports.Granted | jack.c:172-185 | the ports granted before the first refusal: all are accepted, and the next is refused |
| Ports.GrantedIs | jack.c:172-185 | the granted count is the only count with that property |
| Ports.Attempted | jack.c:172-185 | the ports asked for are the granted ones plus the first refused one, if any |
| Ports.RefusedAt | jack.c:175-185 | when port `k` is the first refused, registration stops after asking for it |
| Ports.AllGranted | jack.c:170-188 | with no refusal, every port is asked for and granted |
| Events.ClientStarts | jack.c:138-150 | start_jack_client succeeds: the client opens and the callback is accepted |
| Events.Registers | jack.c:232-244 | jack_init reaches register_ports: a client exists or starts, and malloc succeeds |
| Events.InitSucceeds | jack.c:232-258 | jack_init returns 0: it reaches register_ports and every port is granted |
| Events.InitEvents | jack.c:226-258 | jack_init's calls: client set-up only while there is no client, then the attempted registrations |
| Events.InputEvents | jack.c:86-95 | the timecode half of process_deck: the input fetches, then the submit if the deck has a timecoder |
| Events.OutputEvents | jack.c:97-104 | the playback half of process_deck: the output fetches, then the collect |
| Events.DeckEvents | jack.c:79-106 | process_deck's calls: the timecode half followed by the playback half |
| Events.CycleEvents | jack.c:112-120 | one cycle's calls: each registered deck's calls, deck after deck, on the cycle's initial inputs |
| Events.TimecoderSubmits | jack.c:94-95 | the submits one cycle should make: one per deck with a timecoder, in registry order |
| Events.ClientEvents | jack.c:138-154 | start_jack_client always opens; it installs the callback only after a successful open, and reads the rate only after that |
| Events.Registrations | jack.c:172-182 | one port registration per port asked for, in order |
| Events.RegistrationsSnoc | jack.c:170-187 | asking for one more port appends its registration |
| Events.InitEventsAppend | jack.c:232-244 | jack_init's calls are client set-up first and port registrations after it, in the cases the code distinguishes |
| Events.InitOpensOnlyWithoutClient | jack.c:232-244 | jack_init opens a client exactly when there is none, installs the callback only after opening, and registers ports exactly when set-up and malloc succeeded |
| Events.CallbackRefusalSticks | jack.c:138-150 | after a refused callback, that init fails, and a later init opens no new client; the sample rate is never read |
| Events.OpenFailureStopsInit | jack.c:138-145 | after a failed open, init fails having called nothing else |
| Events.PortIds | jack.c:34-37 | the handles of a deck's four ports |
| Events.Fetches | jack.c:88-91 | one buffer fetch per port, in channel order |
| Events.DeckEventsOrdered | jack.c:86-105 | process_deck's calls come in four phases: input fetches, the submit, output fetches, then the collect, which is last |
| Events.SelectInputEvents | jack.c:88-95 | the timecode half has no collect, and a submit exactly when the deck has a timecoder |
| Events.SelectOutputEvents | jack.c:99-104 | the playback half has no submit and exactly one collect |
| Events.DeckCollectsOnce | jack.c:104 | process_deck lets the player collect exactly once |
| Events.DeckSubmitsOnlyWithTimecoder | jack.c:94-95 | process_deck submits once with the interleaved input when the deck has a timecoder, and never otherwise |
| Events.DeckInputs | jack.c:88-89 | the input channel buffers of a deck, picked by its input handles |
| Events.CycleVisitsInOrder | jack.c:116-117 | one cycle lets every registered deck's player collect exactly once, in registry order |
| Events.CycleSubmits | jack.c:116-117 | a cycle submits once per deck with a timecoder, in registry order, each with its deck's interleaved input |
| Events.SelectAppend | jack.c:116-117 | selecting calls from two runs of calls concatenates the selections |
| Events.SelectFetches | jack.c:88-102 | buffer fetches are neither submits nor collects |
| Cycle.CycleDone | jack.c:116-117 | after the first `n` decks: only their output buffers changed, only in their first `nframes` samples, and each last entry's outputs hold its player's channels |
| Cycle.InputsAreNotOutputs | jack.c:172-182 | no deck's input port is any deck's output port |
| Cycle.InputsUntouched | jack.c:116-117 | before deck `n` runs, its input buffers still hold what the cycle started with |
| Cycle.DeckStep | jack.c:116-117 | running deck `n`, which writes only its own outputs, extends the partial cycle by one deck |
| Cycle.OutputsApart | jack.c:172-182 | decks of different devices have no output port in common |
| Cycle.StepTails | jack.c:99-105 | a deck changes buffers only in their first `nframes` samples |
| Cycle.StepOthers | jack.c:116-117 | a buffer no deck so far outputs to still holds its contents from the start of the cycle |
| Cycle.StepOutputs | jack.c:116-117 | after deck `n`, the outputs of every deck so far that is its device's last entry hold what its player rendered |
| Cycle.CycleEventsSnoc | jack.c:116-117 | one more deck's calls follow the calls of the decks before it |
| JackBackend.Handle | jack.c:172-185 | the handle stored for request `i`: the granted port, or NULL for the refused one |
| JackBackend.GrantedBoth | jack.c:172-186 | both ports of channel `n` granted: their handles are stored, in schedule order |
| JackBackend.RefusedInput | jack.c:172-178 | channel `n`'s input refused: its NULL handle ends the stored handles |
| JackBackend.RefusedOutput | jack.c:180-186 | channel `n`'s output refused after its input was granted |
| JackBackend.InputContents | jack.c:88-89 | the contents of a deck's input buffers, channel by channel |
| JackBackend.OutputBuffers | jack.c:99-100 | the arrays of a deck's output buffers, channel by channel |
| JackBackend.OwnedByGrows | jack.c:243-244 | registering more ports keeps the ports a deck owns |
| JackBackend.OutputsAmongBuffers | jack.c:99-100 | a deck's output buffers are among the cycle's buffers |
| JackBackend.Allotted | jack.c:170-186 | the handles stored when every port is granted: complete, pairwise different, in schedule order |
| JackBackend.AllGrantedHandles | jack.c:170-188 | with no refusal, the stored handles are exactly the allotted ones |
| JackBackend.AllottedOwned | jack.c:170-186 | the allotted ports are registered with the right directions, and none was registered before |
| JackBackend.IdsBelow | jack.c:172-182 | the ports a deck owns were registered before the ports of later decks |
| JackBackend.Jack.ValidAt | jack.c:39-41 | the registry invariant over a port list: at most four decks, each with all its ports registered, and two devices share no port |
| JackBackend.Jack.Valid | jack.c:39-41 | the registry invariant over the server's registered ports |
| JackBackend.Jack.Registry | jack.c:41 | the registered decks, in registration order: `device[0..decks)` with their ports |
| JackBackend.Jack.constructor | jack.c:39-41 | at start there is no client and no deck |
| JackBackend.Jack.StartJackClient | jack.c:133-158 | `client` is set exactly when the open succeeds, even when the callback is refused; the result is 0 only when both succeed, and only then is the rate read |
| JackBackend.Jack.PortRegister | jack.c:172-182 | a registration adds the port to the server's list and returns its handle, or NULL when refused |
| JackBackend.Jack.Request | jack.c:172-185 | one registration: either the port is granted and the next may follow, or it is the first refusal and registration stops |
| JackBackend.Jack.RegisterChannel | jack.c:170-187 | one iteration of the loop: the input port and then, if granted, the output port of channel `n` |
| JackBackend.Jack.RegisterPorts | jack.c:163-189 | the ports up to the first refusal are registered and their handles stored; NULL is stored for the refused one; earlier ports are not rolled back; the result is 0 exactly when none was refused |
| JackBackend.Jack.ValidGrows | jack.c:243-244 | registering more ports keeps the registry invariant |
| JackBackend.Jack.JackInit | jack.c:226-258 | result 0 exactly when set-up, malloc and every registration succeed. The client is opened only while NULL, and the rate is read only on a successful set-up. The trace and port list are stated exactly. On success `device[decks] := dv`, `decks` grows by one and the deck gets its ports and the JACK hooks; on failure the registry and `dv` are unchanged. The registry invariant is kept |
| JackBackend.Jack.EnsureClient | jack.c:232-235 | start_jack_client runs only while there is no client; the result is -1 exactly when it fails |
| JackBackend.Jack.AddDeck | jack.c:237-258 | malloc failure registers nothing; otherwise the schedule is registered up to the first refusal, and the deck is enrolled only when all four ports are granted |
| JackBackend.Jack.Enrol | jack.c:246-256 | `dv` gets its ports, no poll descriptors, no handle and the JACK hooks. It is appended as `device[decks]`, and the registry invariant is kept. When `dv` was not registered before, the registry grows by exactly that deck. When it was, its earlier entries also take the new ports |
| JackBackend.Jack.Start | jack.c:194-203 | every call activates the client; -1 exactly when JACK refuses |
| JackBackend.Jack.PortGetBuffer | jack.c:89 | the buffer JACK holds for the port in this cycle |
| JackBackend.Jack.FetchBuffers | jack.c:88-91 | the buffers of the given ports, fetched in channel order |
| JackBackend.Jack.TimecoderSubmit | jack.c:94-95 | the interleaved input is handed to the timecoder with the frame count and the rate |
| JackBackend.Jack.PlayerCollect | jack.c:104 | the player writes what it renders to the front of `buf` |
| JackBackend.Jack.TimecodeInput | jack.c:86-95 | the fresh local buffer holds the interleaved input channels; the submit happens only with a timecoder |
| JackBackend.Jack.AudioOutput | jack.c:97-105 | each output buffer's first `nframes` samples become the player's channel, converted; its tail is unchanged |
| JackBackend.Jack.ProcessDeck | jack.c:79-106 | the deck's calls in order; its output buffers hold what its player rendered, uninterleaved; every other buffer, its inputs included, is unchanged |
| JackBackend.Jack.OwnedWiring | jack.c:88-102 | a registered deck's ports each have their own buffer |
| JackBackend.Apart | jack.c:99-100 | two different handles have different buffers |
| JackBackend.Jack.ProcessCallback | jack.c:112-120 | returns 0. Runs process_deck on `device[0..decks)` in order, each once, with the inputs the cycle started with. Each output buffer of a last registry entry holds its player's channel; every other buffer is unchanged |
| JackBackend.Jack.RunDeck | jack.c:116-117 | one iteration of the loop extends the partial cycle by one deck |
| JackBackend.InputsNow | jack.c:116-117 | before deck `n` runs, its input buffers hold the cycle's initial contents |
| JackBackend.DeckRan | jack.c:116-117 | deck `n` having written only its own outputs, the first `n + 1` decks have run |
| JackBackend.Jack.CycleStart | jack.c:112-116 | at the start of a cycle no deck has run, and every registered deck's ports have their own buffers |

## Left out

- JACK internals are not modelled: `jack_client_open`, `jack_set_process_callback`, `jack_port_register`, `jack_port_get_buffer`, `jack_on_shutdown`, `jack_get_sample_rate` and `jack_activate` become arguments and trace events.
- The printed diagnostics (`fprintf`, `perror`) and the `JackServerFailed` distinction are left out because they only affect what is printed.
- The float conversions, `(signed short)(x * SCALE)` and `x / SCALE`, are uninterpreted functions. They are not modelled because they are floating-point arithmetic, and the C cast is undefined out of range.
  - `toShort` is typed to return an in-range `Short`. This means the model does not capture what full-scale input does to the 16-bit field.
- Buffer aliasing: JACK may hand out the same buffer to two ports. The model requires every port's buffer to be a different array (`JackBackend.CycleBuffers`), so aliased port buffers are not modelled.
- The internals of `timecoder_submit` and `player_collect` are left out; each is kept only as a trace event. The player's output is the `rendered` argument, which overwrites the first `2*nframes` samples of the local buffer.
- `stop` (returns 0) and `clear` (`free`) are represented only by the `JackHooks` tag installed on the device. `stop` has no effect to state. `clear` frees `dv->local` while `device[]` still holds `dv`; the model has no allocator and assumes no cycle runs after `clear`.
- The empty `shutdown_callback` is kept only as the `SetShutdownCallback` event, which records its installation by `jack_on_shutdown` (jack.c:152).
- The unreachable `fail:` label (jack.c:260-262) is left out; so is the leak of `struct jack_t` when registration fails, because the model has no memory allocator.
- malloc is the boolean argument `allocates`, and the uninitialised allocation is the argument `garbage`.
- The JACK process thread is left out. The model is one sequential caller that finishes every `jack_init` before any cycle runs.
- JackBackend.Jack.ProcessCallback: requires `nframes <= 1024`, for the same reason as ProcessDeck below.
- JackBackend.Jack.ProcessDeck: requires `nframes <= 1024`, the capacity of process_deck's stack buffer (jack.c:82). The code does not check it.
- JackBackend.Jack.JackInit: `assert(decks < MAX_DECKS)` (jack.c:254) becomes a precondition. The precondition applies only on the paths that reach the assert.
- JackBackend.Jack.RegisterPorts: requires the deck name to have at most 20 characters on every call, since its first `sprintf` (jack.c:171) always runs.
- JackBackend.Jack.AddDeck: requires the deck name to have at most 20 characters only when malloc succeeds, the one path that reaches `register_ports`.
- JackBackend.Jack.JackInit: requires the deck name to have at most 20 characters only on the paths that reach `register_ports` (a client exists or starts, and malloc succeeds), so that `sprintf` stays within `port_name`. A longer name is accepted when the open fails, the callback is refused or malloc fails, since `name` is not used there. The overflow itself is not modelled.
- JackBackend.Jack.Start: requires a client. The code calls `jack_activate` on whatever `client` holds.
- JackBackend.Jack.JackInit: states the new registry through `device` and `decks`; the growth of `Registry()` by exactly one deck is stated on `JackBackend.Jack.Enrol`, which it calls.
- The assertions that fetched buffers are non-NULL (jack.c:90, 101) become preconditions: every port handle has a buffer (`JackBackend.Wired`).
- `DEVICE_CHANNELS == 2` is the constant `Layout.Channels`; its assertion (jack.c:169) holds by definition.
- Ports.PortNameFits: the deck name is modelled as one byte per character. Dafny's `string` counts characters, while `sprintf` into `port_name` counts bytes, so the equivalence holds only for single-byte names. A 20-character name with multi-byte characters would overflow `port_name` in C, and the model does not capture that.
