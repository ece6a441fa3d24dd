# OpenNERO engine utilities and mod logic, in Dafny

This project models the parts of OpenNERO that are logic rather than rendering, sound or physics. OpenNERO is a game platform for AI research, written in C++ and Python. One Dafny module models each source file.

- **Engine utilities:**
  - the byte stream (`Bitstreams`) and the Irrlicht coordinate and stream helpers (`IrrUtil`);
  - the dirty-bit entity state and its delta transmission (`SimEntityDatas`, `AnimSimEntityDatas`);
  - keyboard and mouse state (`IOStates`) and input bindings (`IOMappings`);
  - the GUI element registry (`GuiManagers`, with `Decimals` for number text);
  - the performance counters (`PerformanceMetrics`);
  - the simulation's entity registry (`Simulations`, exercised in `SimulationClients`);
  - scene-object id packing and material strings (`SceneObjects`);
  - template property lookups (`PropertyMaps`).
- **AI data structures:**
  - feature-vector bounds, validation, normalisation and enumeration (`FeatureVectors`);
  - vector arithmetic (`FeatureVectorArithmetic`);
  - the quantising table approximator (`Approximators`);
  - CMAC tile hashing (`Tiles`).
- **rtNEAT:** genomes (`Genomes`), nodes (`NNodes`), species (`Speciation`) and populations (`Populations`).
- **The advice language:** variable numbering and values (`AdviceVariables`); terms, conditions and rules (`AdviceRules`).
- **The Python mods:**
  - two STRIPS planners (`Strips`, `StripsPlanning`);
  - the Tower of Hanoi agent and environment (`HanoiAgent`, `HanoiEnvironment`);
  - the maze agents, environment and neuron coding (`MazeAgent`, `MazeFrontier`, `MazeEnvironment`, `MazeModule`);
  - the NERO environment and module (`NeroEnvironments`, `NeroModules`);
  - the battle tournament runner (`BattleTournament`);
  - the learning-curve plotter (`PlotServer`).

Some code updates objects in place: the stream, the entity and input state, the registries, the performance manager, the species and population vectors, the planners' worlds, the agents' search state and the plotter's series. That code is modelled as classes or as methods with loops. Each method is proved against a specification function or an invariant. Pure code is modelled as functions with lemmas. These are what the lemmas prove:

- encoders and decoders round-trip;
- registries keep their maps consistent;
- searches find the first or the best element;
- and each operation is tied to an independent definition of its result.

Source integers are modelled as unbounded `int`, or as subset types where the source's width matters. Floats are modelled as `real`, except where the source only moves their 32-bit pattern, and except the tournament's `math.log`, which is replaced by an exact integer logarithm (see Left out). Randomness, clocks, files, sockets and foreign libraries do not appear; where the logic needs what they return, it is a parameter.

## Model

| member | source | states |
|---|---|---|
| Bitstreams.U32Bytes | source/core/Bitstream.cpp:146-155 | four bytes, the most significant first and the least significant last |
| Bitstreams.U32RoundTrip | source/core/Bitstream.cpp:146-155 | decoding the four bytes written for a word gives the word back |
| Bitstreams.U32DecodeEncode | source/core/Bitstream.cpp:237-247 | writing the word read from four bytes gives those four bytes back |
| Bitstreams.DecodeWordAt | source/core/Bitstream.cpp:237-247 | a stream whose first four bytes encode w reads as w, whatever follows |
| Bitstreams.U16BytesAsWritten | source/core/Bitstream.cpp:137-144 | the uint16 writer as written: the high byte pushed is `val << 8` truncated to a byte, always 0, then the low byte |
| Bitstreams.U16Bytes | source/core/Bitstream.cpp:137-144 | the intended uint16 writer: high byte then low byte, and it reads back as the value |
| Bitstreams.U16DecodeEncode | source/core/Bitstream.cpp:227-235 | writing the value read from two bytes gives those two bytes back |
| Bitstreams.U16AsWrittenKeepsLowByte | source/core/Bitstream.cpp:137-144 | what the written uint16 writer pushes reads back as the value modulo 256 only |
| Bitstreams.U16AsWrittenLoses256 | source/core/Bitstream.cpp:137-144 | 256 written as written reads back as 0 |
| Bitstreams.ToSigned32 | source/core/Bitstream.cpp:267-274 | the int32 read from a word: in the 32-bit signed range, negative exactly when the top bit is set |
| Bitstreams.ToUnsigned32 | source/core/Bitstream.cpp:169-173 | the (uint32_t) cast of an int32 reads back through the signed cast as the same number |
| Bitstreams.ToSigned8 | source/core/Bitstream.cpp:249-256 | the int8 read from a byte: in the signed range, negative exactly when the top bit is set |
| Bitstreams.ToUnsigned8 | source/core/Bitstream.cpp:157-161 | the (uint8_t) cast of an int8 reads back through the signed cast as the same number |
| Bitstreams.ToUnsigned16 | source/core/Bitstream.cpp:163-167 | the (uint16_t) cast of an int16 reads back as the same number through the signed reading |
| Bitstreams.FirstNul | source/core/Bitstream.cpp:314-325 | the position of the first NUL byte (the length when there is none): every byte before it is non-zero |
| Bitstreams.StringRead | source/core/Bitstream.cpp:314-325 | the string reader takes the bytes before the first NUL, or before the last byte when there is no NUL, and consumes them plus one byte |
| Bitstreams.StringRoundTrip | source/core/Bitstream.cpp:205-216 | a NUL-free string written with its terminator reads back as itself, consuming its length plus one, whatever follows |
| Bitstreams.FirstNulOfTerminated | source/core/Bitstream.cpp:314-325 | in a NUL-free string followed by NUL the first NUL is at the string's length |
| Bitstreams.UnterminatedDropsLastByte | source/core/Bitstream.cpp:314-325 | bytes with no NUL read as all of them but the last, which is consumed too |
| Bitstreams.Bitstream.constructor | source/core/Bitstream.cpp:15 | an empty stream with the cursor at 0 |
| Bitstreams.Bitstream.Clear | source/core/Bitstream.cpp:37-41 | the stream is emptied and the cursor reset to 0 |
| Bitstreams.Bitstream.IsEmpty | source/core/Bitstream.cpp:47-50 | true exactly when no byte is left to read |
| Bitstreams.Bitstream.ByteLength | source/core/Bitstream.cpp:53-56 | the number of bytes left to read |
| Bitstreams.Bitstream.Rewind | source/core/Bitstream.cpp:59-64 | the cursor moves to the offset, or to the end when the offset lies beyond it; the bytes are kept |
| Bitstreams.Bitstream.Equals | source/core/Bitstream.cpp:81-104 | equal exactly when both cursors and both byte vectors are equal |
| Bitstreams.Bitstream.PopByte | source/core/Bitstream.cpp:106-110 | on a non-empty stream, the byte at the cursor is returned and the cursor moves on by one |
| Bitstreams.Bitstream.PushByte | source/core/Bitstream.cpp:116-120 | the byte is appended; the stream is then not empty |
| Bitstreams.Bitstream.PushBytes | source/core/Bitstream.cpp:192-201 | the bytes are appended in order, the cursor kept |
| Bitstreams.Bitstream.WriteU8 | source/core/Bitstream.cpp:130-134 | the byte is appended |
| Bitstreams.Bitstream.WriteU16AsWritten | source/core/Bitstream.cpp:137-144 | the two bytes of the uint16 writer as written are appended |
| Bitstreams.Bitstream.WriteU16 | source/core/Bitstream.cpp:137-144 | the two bytes of the intended uint16 writer are appended |
| Bitstreams.Bitstream.WriteU32 | source/core/Bitstream.cpp:146-155 | the four bytes of the word, most significant first, are appended |
| Bitstreams.Bitstream.WriteI8 | source/core/Bitstream.cpp:157-161 | the byte of the (uint8_t) cast is appended |
| Bitstreams.Bitstream.WriteI16 | source/core/Bitstream.cpp:163-167 | the (uint16_t) cast is written by the uint16 writer as written |
| Bitstreams.Bitstream.WriteI32 | source/core/Bitstream.cpp:169-173 | the four bytes of the (uint32_t) cast are appended |
| Bitstreams.Bitstream.WriteF32 | source/core/Bitstream.cpp:175-180 | the four bytes of the float's 32-bit pattern are appended |
| Bitstreams.Bitstream.WriteF64 | source/core/Bitstream.cpp:182-190 | the two 32-bit words of the double's pattern are appended, each most significant byte first |
| Bitstreams.Bitstream.WriteStream | source/core/Bitstream.cpp:192-201 | every byte of the other stream, read or not, is appended |
| Bitstreams.Bitstream.WriteString | source/core/Bitstream.cpp:205-214 | the string's bytes and then a NUL are appended |
| Bitstreams.Bitstream.ReadU8 | source/core/Bitstream.cpp:218-225 | the next byte is read and the cursor moves on by one |
| Bitstreams.Bitstream.ReadU16 | source/core/Bitstream.cpp:227-235 | the next two bytes are read as a big-endian number and the cursor moves on by two |
| Bitstreams.Bitstream.ReadU32 | source/core/Bitstream.cpp:237-247 | the next four bytes are read as a big-endian word and the cursor moves on by four |
| Bitstreams.Bitstream.ReadI8 | source/core/Bitstream.cpp:249-256 | the next byte is read as a signed byte |
| Bitstreams.Bitstream.ReadI16 | source/core/Bitstream.cpp:258-265 | the next two bytes are read as a signed 16-bit number |
| Bitstreams.Bitstream.ReadI32 | source/core/Bitstream.cpp:267-274 | the next four bytes are read as a signed 32-bit number |
| Bitstreams.Bitstream.ReadF32 | source/core/Bitstream.cpp:276-286 | the next four bytes are read as the float's bit pattern |
| Bitstreams.Bitstream.ReadF64 | source/core/Bitstream.cpp:288-299 | the next eight bytes are read as the double's two words |
| Bitstreams.Bitstream.ReadStream | source/core/Bitstream.cpp:301-310 | every byte of this stream, read or not, is appended to the other; this one is unchanged |
| Bitstreams.Bitstream.ReadString | source/core/Bitstream.cpp:314-325 | the string and the number of bytes consumed are what StringRead gives for the unread bytes |
| Bitstreams.U32StreamRoundTrip | source/core/Bitstream.cpp:146-155 | a uint32 written to a fresh stream reads back as itself |
| Bitstreams.I32StreamRoundTrip | source/core/Bitstream.cpp:169-173 | an int32 written to a fresh stream reads back as itself |
| Bitstreams.U16StreamRoundTripAsWritten | source/core/Bitstream.cpp:137-144 | with the uint16 writer as written, a value reads back only modulo 256 |
| Bitstreams.U16StreamRoundTrip | source/core/Bitstream.cpp:137-144 | with the intended uint16 writer, a value reads back as itself |
| Bitstreams.StringStreamRoundTrip | source/core/Bitstream.cpp:205-216 | a NUL-free string written to a fresh stream reads back as itself with nothing left |
| Bitstreams.DivModByte | source/core/Bitstream.cpp:227-247 | the reader's shift-and-add of a byte is undone by dividing by 256: the quotient is the earlier part and the remainder the byte |
| IrrUtil.Negate | branches/cleanmod/source/core/IrrUtil.h:253 | float negation keeps every bit of the pattern but the sign bit and flips that one |
| IrrUtil.NeroToIrrlichtPosition | branches/cleanmod/source/core/IrrUtil.h:236-239 | x is kept and y and z are swapped |
| IrrUtil.IrrlichtToNeroPosition | branches/cleanmod/source/core/IrrUtil.h:243-247 | the Irrlicht-to-NERO position is undone by the NERO-to-Irrlicht one |
| IrrUtil.NeroToIrrlichtRotation | branches/cleanmod/source/core/IrrUtil.h:251-254 | x is negated and y and z are swapped and negated |
| IrrUtil.IrrlichtToNeroRotation | branches/cleanmod/source/core/IrrUtil.h:258-262 | the Irrlicht-to-NERO rotation is undone by the NERO-to-Irrlicht one |
| IrrUtil.PositionConversionsInverse | branches/cleanmod/source/core/IrrUtil.h:236-247 | the two position conversions are inverse in both orders |
| IrrUtil.RotationConversionsInverse | branches/cleanmod/source/core/IrrUtil.h:251-262 | the two rotation conversions are inverse in both orders |
| IrrUtil.VectorBytes | branches/cleanmod/source/core/IrrUtil.h:205-209 | a vector is written as 12 bytes, the words of x, y and z |
| IrrUtil.WriteVector | branches/cleanmod/source/core/IrrUtil.h:205-209 | the 12 bytes of the vector are appended |
| IrrUtil.ReadVector | branches/cleanmod/source/core/IrrUtil.h:212-216 | the next 12 bytes are read as x, y and z and the cursor moves on by 12 |
| IrrUtil.VectorOfBytes | branches/cleanmod/source/core/IrrUtil.h:205-216 | the bytes of a vector, whatever follows, decode to the vector |
| IrrUtil.VectorStreamRoundTrip | branches/cleanmod/source/core/IrrUtil.h:205-216 | a vector written to a fresh stream reads back as itself |
| IrrUtil.ColorBytes | branches/cleanmod/source/core/IrrUtil.h:219-222 | a colour is written as 16 bytes: alpha, red, green and blue each as a 32-bit word |
| IrrUtil.ColorFromWords | branches/cleanmod/source/core/IrrUtil.h:226-231 | each channel keeps the low byte of its word |
| IrrUtil.WriteColor | branches/cleanmod/source/core/IrrUtil.h:219-222 | the 16 bytes of the colour are appended |
| IrrUtil.ReadColor | branches/cleanmod/source/core/IrrUtil.h:226-231 | the next 16 bytes are read as four words and the colour set from them |
| IrrUtil.ColorOfBytes | branches/cleanmod/source/core/IrrUtil.h:219-231 | the bytes of a colour, whatever follows, decode to the colour |
| IrrUtil.ColorStreamRoundTrip | branches/cleanmod/source/core/IrrUtil.h:219-231 | a colour written to a fresh stream reads back as itself |
| SimEntityDatas.OrFacts | source/game/SimEntityData.cpp:196-199 | OR-ing a mask into no bits gives the mask, and OR never clears a bit that was set |
| SimEntityDatas.BitsOfWord | source/game/SimEntityData.cpp:186-189 | the bits of the word a bit sequence stands for are that sequence again |
| SimEntityDatas.MaskRoundTrip | source/game/SimEntityData.cpp:214 | a dirty mask sent as a uint32 word reads back as the same 32 bits |
| SimEntityDatas.BitsDistinct | source/game/SimEntityData.cpp:215-250 | each of the nine members has its own bit: a member's bit contains another member exactly when they are the same member, and two different members' bits share nothing |
| SimEntityDatas.FieldBytes | source/game/SimEntityData.cpp:215-250 | every member is written as a non-empty run of bytes |
| SimEntityDatas.DeltaBytes | source/game/SimEntityData.cpp:207-252 | a delta starts with the four bytes of the dirty mask word |
| SimEntityDatas.ReadField | source/game/SimEntityData.cpp:267-302 | reading one member consumes at least one byte and no more than is there |
| SimEntityDatas.ReadFields | source/game/SimEntityData.cpp:267-302 | reading the dirty members never consumes more than is there |
| SimEntityDatas.ReadFieldOfBytes | source/game/SimEntityData.cpp:215-302 | a member's bytes, whatever follows, read back as that member's value copied into the receiver, consuming exactly those bytes |
| SimEntityDatas.ReadFieldsOfBytes | source/game/SimEntityData.cpp:215-302 | the bytes of the dirty members, written in wire order, read back as exactly those members copied into the receiver, consuming exactly those bytes |
| SimEntityDatas.DeltaRoundTrip | source/game/SimEntityData.cpp:207-304 | a written delta reads back with the same mask, and the receiver gets the sender's value for exactly the dirty members, whatever follows in the stream |
| SimEntityDatas.StatesAgree | source/game/SimEntityData.cpp:14-27 | two states with equal values for every member are equal |
| SimEntityDatas.CopyFieldChangesOnlyIt | source/game/SimEntityData.cpp:267-302 | reading one member changes that member and no other |
| SimEntityDatas.MergeMembers | source/game/SimEntityData.cpp:267-302 | after the reader, each member has the sender's value when it is dirty in the mask and listed, and keeps the receiver's value otherwise |
| SimEntityDatas.InWireOrder | source/game/SimEntityData.cpp:215-250 | every member appears in the writer's order |
| SimEntityDatas.MergeNone | source/game/SimEntityData.cpp:257-304 | a delta with no dirty bit leaves the receiver unchanged |
| SimEntityDatas.MergeAll | source/game/SimEntityData.cpp:257-304 | a delta with every bit dirty gives the receiver every member of the sender |
| SimEntityDatas.WriteMember | source/game/SimEntityData.cpp:215-250 | appends exactly the member's bytes and keeps the cursor |
| SimEntityDatas.WriteMemberIfDirty | source/game/SimEntityData.cpp:215-250 | one step of the writer: the bytes of the first listed member are appended when it is dirty, so the rest of the delta still completes the target |
| SimEntityDatas.WriteDelta | source/game/SimEntityData.cpp:207-252 | appends exactly the delta bytes: the mask word, then the dirty members in order |
| SimEntityDatas.ReadMember | source/game/SimEntityData.cpp:267-302 | reads one member as the specification reader does and moves the cursor over exactly its bytes |
| SimEntityDatas.ReadMemberIfDirty | source/game/SimEntityData.cpp:267-302 | one step of the reader: the first listed member is read when it is dirty, and the rest of the reading still ends in the same state and position |
| SimEntityDatas.ReadThreeIfDirty | source/game/SimEntityData.cpp:267-302 | three steps of the reader, with the same guarantee |
| SimEntityDatas.ReadMembers | source/game/SimEntityData.cpp:267-302 | reads the dirty members in wire order, giving the state and the cursor move the specification reader gives |
| SimEntityDatas.ReadMask | source/game/SimEntityData.cpp:264-265 | reads the four-byte dirty mask and moves the cursor over it |
| SimEntityDatas.SimEntityData.State | source/game/SimEntityData.cpp:136-184 | the getters: each member of the state is the corresponding field |
| SimEntityDatas.SimEntityData.constructor | source/game/SimEntityData.cpp:14-27 | zero vectors, unit scale, empty label, white, type and collision 0, id 0 and every dirty bit set |
| SimEntityDatas.SimEntityData.Init | source/game/SimEntityData.cpp:29-48 | the given position, rotation, scale, label, type, collision and id, zero velocity and acceleration, white, and every dirty bit set |
| SimEntityDatas.SimEntityData.SetPosition | source/game/SimEntityData.cpp:50-57 | the position becomes the argument and nothing else changes; its bit is raised exactly when the value differs |
| SimEntityDatas.SimEntityData.SetRotation | source/game/SimEntityData.cpp:59-66 | the rotation becomes the argument and nothing else changes; its bit is raised exactly when the value differs |
| SimEntityDatas.SimEntityData.SetVelocity | source/game/SimEntityData.cpp:68-75 | the velocity becomes the argument and nothing else changes; its bit is raised exactly when the value differs |
| SimEntityDatas.SimEntityData.SetAcceleration | source/game/SimEntityData.cpp:77-84 | the acceleration becomes the argument and nothing else changes; its bit is raised exactly when the value differs |
| SimEntityDatas.SimEntityData.SetLabel | source/game/SimEntityData.cpp:86-93 | the label becomes the argument and nothing else changes; its bit is raised exactly when the value differs |
| SimEntityDatas.SimEntityData.SetColor | source/game/SimEntityData.cpp:95-102 | the colour becomes the argument and nothing else changes; its bit is raised exactly when the value differs |
| SimEntityDatas.SimEntityData.SetScale | source/game/SimEntityData.cpp:104-111 | the scale becomes the argument and nothing else changes; its bit is raised exactly when the value differs |
| SimEntityDatas.SimEntityData.SetType | source/game/SimEntityData.cpp:113-120 | the type becomes the argument and nothing else changes; its bit is raised exactly when the value differs |
| SimEntityDatas.SimEntityData.SetCollision | source/game/SimEntityData.cpp:122-129 | the collision mask becomes the argument and nothing else changes; its bit is raised exactly when the value differs |
| SimEntityDatas.SimEntityData.ClearDirtyBits | source/game/SimEntityData.cpp:131-134 | no dirty bit is left; the state is kept |
| SimEntityDatas.SimEntityData.SetAllDirtyBits | source/game/SimEntityData.cpp:191-194 | every dirty bit is set; the state is kept |
| SimEntityDatas.SimEntityData.SetDirtyBits | source/game/SimEntityData.cpp:196-199 | the bits are OR-ed into the dirty mask; the state is kept |
| SimEntityDatas.SimEntityData.SetState | source/game/SimEntityData.cpp:267-302 | every member takes the given value; id and dirty bits are kept |
| SimEntityDatas.SimEntityData.Write | source/game/SimEntityData.cpp:207-252 | appends the delta of the entity's dirty members: the mask word, then each dirty member in wire order |
| SimEntityDatas.SimEntityData.Read | source/game/SimEntityData.cpp:257-304 | the incoming mask is OR-ed into the dirty bits, the dirty members of the delta replace the entity's, and the cursor moves over the delta |
| SimEntityDatas.SimEntityData.SameEntity | source/game/SimEntityData.cpp:306-314 | two entities compare equal exactly when their ids are equal |
| SimEntityDatas.Make | source/game/SimEntityData.cpp:29-134 | the constructor, the setters and ClearDirtyBits build a clean entity holding any given state |
| SimEntityDatas.DeltaStreamRoundTrip | source/game/SimEntityData.cpp:196-304 | an entity marked with a mask, written and read into a clean receiver, leaves the receiver with that mask and the sender's values for exactly the marked members |
| SimEntityDatas.DirtyQueries | source/game/SimEntityData.cpp:196-204 | a fresh entity is dirty for any query with a bit set, a cleared one for none, and after SetDirtyBits exactly the set bits are dirty again |
| AnimSimEntityDatas.BumpedBitIsItsOwn | branches/animation_bug/source/game/SimEntityData.cpp:151-158 | the bumped bit is the bit of no streamed member and shares no bit with any of them |
| AnimSimEntityDatas.SimEntityData.constructor | branches/animation_bug/source/game/SimEntityData.cpp:47-53 | both snapshots hold the default members, not bumped; id 0 and every dirty bit set |
| AnimSimEntityDatas.SimEntityData.Init | branches/animation_bug/source/game/SimEntityData.cpp:55-68 | both snapshots hold the given members with zero velocity and acceleration and white, not bumped; every dirty bit set |
| AnimSimEntityDatas.SimEntityData.SetPosition | branches/animation_bug/source/game/SimEntityData.cpp:70-77 | only the current snapshot's position changes, the previous snapshot is kept, and the position bit is raised exactly when the value differs |
| AnimSimEntityDatas.SimEntityData.SetRotation | branches/animation_bug/source/game/SimEntityData.cpp:79-86 | only the current snapshot's rotation changes, the previous snapshot is kept, and the rotation bit is raised exactly when the value differs |
| AnimSimEntityDatas.SimEntityData.SetVelocity | branches/animation_bug/source/game/SimEntityData.cpp:88-95 | only the current snapshot's velocity changes, the previous snapshot is kept, and the velocity bit is raised exactly when the value differs |
| AnimSimEntityDatas.SimEntityData.SetAcceleration | branches/animation_bug/source/game/SimEntityData.cpp:97-104 | only the current snapshot's acceleration changes, the previous snapshot is kept, and the acceleration bit is raised exactly when the value differs |
| AnimSimEntityDatas.SimEntityData.SetLabel | branches/animation_bug/source/game/SimEntityData.cpp:106-113 | only the current snapshot's label changes, the previous snapshot is kept, and the label bit is raised exactly when the value differs |
| AnimSimEntityDatas.SimEntityData.SetColor | branches/animation_bug/source/game/SimEntityData.cpp:115-122 | only the current snapshot's colour changes, the previous snapshot is kept, and the colour bit is raised exactly when the value differs |
| AnimSimEntityDatas.SimEntityData.SetScale | branches/animation_bug/source/game/SimEntityData.cpp:124-131 | only the current snapshot's scale changes, the previous snapshot is kept, and the scale bit is raised exactly when the value differs |
| AnimSimEntityDatas.SimEntityData.SetType | branches/animation_bug/source/game/SimEntityData.cpp:133-140 | only the current snapshot's type changes, the previous snapshot is kept, and the type bit is raised exactly when the value differs |
| AnimSimEntityDatas.SimEntityData.SetCollision | branches/animation_bug/source/game/SimEntityData.cpp:142-149 | only the current snapshot's collision mask changes, the previous snapshot is kept, and the collision bit is raised exactly when the value differs |
| AnimSimEntityDatas.SimEntityData.SetBumped | branches/animation_bug/source/game/SimEntityData.cpp:151-158 | the current bumped flag becomes the argument and kDB_Bumped is raised exactly when it changes |
| AnimSimEntityDatas.SimEntityData.ClearDirtyBits | branches/animation_bug/source/game/SimEntityData.cpp:170-173 | no dirty bit is left; both snapshots are kept |
| AnimSimEntityDatas.SimEntityData.SetAllDirtyBits | branches/animation_bug/source/game/SimEntityData.cpp:245-248 | every dirty bit is set; both snapshots are kept |
| AnimSimEntityDatas.SimEntityData.SetDirtyBits | branches/animation_bug/source/game/SimEntityData.cpp:250-253 | the bits are OR-ed into the dirty mask; both snapshots are kept |
| AnimSimEntityDatas.SimEntityData.ProcessTick | branches/animation_bug/source/game/SimEntityData.cpp:260-263 | the previous snapshot becomes a copy of the current one, which is kept along with the dirty bits |
| AnimSimEntityDatas.SimEntityData.Write | branches/animation_bug/source/game/SimEntityData.cpp:272-318 | appends the mask and the current snapshot's dirty members in wire order; the bumped flag is not written |
| AnimSimEntityDatas.SimEntityData.Read | branches/animation_bug/source/game/SimEntityData.cpp:322-369 | the incoming mask is OR-ed into the dirty bits and the marked members are read into the current snapshot only; the previous snapshot and the bumped flag are kept |
| AnimSimEntityDatas.SimEntityData.SameEntity | branches/animation_bug/source/game/SimEntityData.cpp:371-379 | two entities compare equal exactly when their ids are equal |
| AnimSimEntityDatas.PreviousLagsOneTick | branches/animation_bug/source/game/SimEntityData.cpp:70-77 | after setting a, ticking and setting b, the previous position is a and the current one b, and the position bit is dirty exactly when either setter changed the position |
| AnimSimEntityDatas.BumpIsNotStreamed | branches/animation_bug/source/game/SimEntityData.cpp:272-369 | a bumped sender with every bit dirty transmits its members, and the receiver gets them without the bumped flag |
| IOStates.IsModifierKey | branches/neroco/source/input/IOState.cpp:138-141 | true exactly for the shift and control keys |
| IOStates.ButtonChange | branches/neroco/source/input/IOState.cpp:181-215 | the wheel and plain moves change no button; every other mouse event names a button, pressed down exactly for the three press events |
| IOStates.IOState.View | branches/neroco/source/input/IOState.cpp:16-33 | the state's four arrays keep their sizes |
| IOStates.IOState.constructor | branches/neroco/source/input/IOState.cpp:16-33 | every key and button up, pointer, deltas and wheel at zero, no modifier down, input from the user |
| IOStates.IOState.SetTrackingSource | branches/neroco/source/input/IOState.cpp:37-40 | only the tracking source changes |
| IOStates.IOState.WasKeyPressedLastFrame | branches/neroco/source/input/IOState.cpp:63-69 | true exactly when the key is down now and was not in the previous frame |
| IOStates.IOState.WasKeyReleasedLastFrame | branches/neroco/source/input/IOState.cpp:72-78 | true exactly when the key is up now and was down in the previous frame |
| IOStates.IOState.WasMouseButtonPressedLastFrame | branches/neroco/source/input/IOState.cpp:102-108 | true exactly when the button is down now and its previous state was up |
| IOStates.IOState.WasMouseButtonReleasedLastFrame | branches/neroco/source/input/IOState.cpp:111-117 | true exactly when the button is up now and its previous state was down |
| IOStates.IOState.HandleIrrKeyboardEvent | branches/neroco/source/input/IOState.cpp:145-165 | with user input: the modifiers are recorded and, unless the key is a modifier, the key's current state becomes the event's; with another source nothing changes |
| IOStates.IOState.HandleMouseButton | branches/neroco/source/input/IOState.cpp:222-226 | the button's current state moves to its previous state and the new state becomes current |
| IOStates.IOState.HandleIrrMouseEvent | branches/neroco/source/input/IOState.cpp:168-217 | with user input: the pointer moves with its delta set to the displacement, then the wheel accumulates or the named button changes; with another source nothing changes |
| IOStates.IOState.MovePointer | branches/neroco/source/input/IOState.cpp:175-178 | the delta becomes the new position minus the old one and the position the new one |
| IOStates.IOState.Scroll | branches/neroco/source/input/IOState.cpp:183-187 | the wheel value grows by the turn and the wheel delta is the turn |
| IOStates.IOState.OnIrrEvent | branches/neroco/source/input/IOState.cpp:44-52 | a key event is handled by the keyboard handler, a mouse event by the mouse handler, any other event changes nothing |
| IOStates.IOState.PrepareForNextSimFrame | branches/neroco/source/input/IOState.cpp:231-262 | the key buffers are swapped and the new current one cleared, the pointer and wheel deltas zeroed, and each button's previous state set to its current one |
| IOStates.Fill | branches/neroco/source/input/IOState.cpp:237 | every element of the array takes the value |
| IOStates.KeyEventTouchesOnlyItsKey | branches/neroco/source/input/IOState.cpp:145-165 | a key event records the modifiers and changes the key array at the event's key only, and not at all for a modifier key |
| IOStates.MouseDeltaIsDisplacement | branches/neroco/source/input/IOState.cpp:175-178 | after a mouse event the position is the event's and the delta the displacement from the old position |
| IOStates.ButtonEdges | branches/neroco/source/input/IOState.cpp:222-226 | a button event makes the button pressed exactly when it goes down from up, and released exactly when it goes up from down |
| IOStates.NextFrameEdges | branches/neroco/source/input/IOState.cpp:236-261 | after the frame boundary no key is pressed, a key is released exactly when it was down, no button is pressed or released, a press becomes a hold and a release becomes nothing |
| IOStates.KeyAcrossFrames | branches/neroco/source/input/IOState.cpp:145-262 | a non-modifier key pressed in one frame reads as pressed, and in the next frame as released and not pressed |
| IOStates.PointerAcrossFrames | branches/neroco/source/input/IOState.cpp:175-178 | two pointer events report the displacement between them and the frame boundary zeroes it |
| IOStates.ClickBecomesHold | branches/neroco/source/input/IOState.cpp:245-261 | a left click reads as pressed in its frame and as held but not pressed in the next |
| IOStates.OtherSourceIgnoresInput | branches/neroco/source/input/IOState.cpp:147-170 | no event changes keys, buttons or pointer while input comes from another source |
| IOMappings.CodeWord | branches/factory2/source/input/IOMapping.cpp:483-491 | a code built from modifier flags and a key part reads back with that key part and those flags, and fits in 32 bits |
| IOMappings.CheckModifierRequirements | branches/factory2/source/input/IOMapping.cpp:24-31 | true exactly when the code's shift and control flags equal the state's |
| IOMappings.ModifiersMatchIff | branches/factory2/source/input/IOMapping.cpp:24-31 | a code built with given flags matches exactly the states whose shift and control are those flags |
| IOMappings.UpperChar | branches/factory2/source/input/IOMapping.cpp:191-196 | the result is never a lower-case letter, and anything that is not a lower-case letter is kept |
| IOMappings.Upper | branches/factory2/source/input/IOMapping.cpp:191-196 | same length, each character upper-cased |
| IOMappings.Split | branches/factory2/source/input/IOMapping.cpp:455 | splitting always gives at least one token |
| IOMappings.SplitJoin | branches/factory2/source/input/IOMapping.cpp:455 | the tokens of a split, joined back with the delimiter, give the input |
| IOMappings.SplitHasNoDelimiter | branches/factory2/source/input/IOMapping.cpp:455 | no token holds a delimiter character |
| IOMappings.ParseTokens | branches/factory2/source/input/IOMapping.cpp:449-463 | one token per piece of the split, each upper-cased |
| IOMappings.Tokens | branches/factory2/source/input/IOMapping.cpp:449-463 | as many tokens as the split gives |
| IOMappings.ParsedTokensRejoin | branches/factory2/source/input/IOMapping.cpp:449-463 | the parsed tokens joined with the delimiter give the upper-cased input |
| IOMappings.UpperJoin | branches/factory2/source/input/IOMapping.cpp:449-463 | upper-casing tokens one by one and joining them equals upper-casing the joined text |
| IOMappings.UpperAppend | branches/factory2/source/input/IOMapping.cpp:191-196 | upper-casing distributes over concatenation |
| IOMappings.GetKeyFromString | branches/factory2/source/input/IOMapping.cpp:213-373 | (KEY)-1 exactly when the upper-cased name is not a key name; otherwise a key code below KEY_KEY_CODES_COUNT |
| IOMappings.GetInputType | branches/factory2/source/input/IOMapping.cpp:384-413 | -1 exactly for an unknown name; ONPRESS, ONRELEASE and ONHOLD give 0, 1, 2 for the keyboard and 3 more for the mouse; MOVEX, MOVEY and SCROLL give the mouse motion types |
| IOMappings.MouseTypesFollowKeyTypes | branches/factory2/source/input/IOMapping.cpp:388-399 | each mouse edge type is its key type plus three |
| IOMappings.GetMouseButtonFromString | branches/factory2/source/input/IOMapping.cpp:418-441 | -1 exactly for an unknown name; otherwise one of the six mouse buttons |
| IOMappings.GetInputCode | branches/factory2/source/input/IOMapping.cpp:468-511 | 0 when no token names a key or button; otherwise the key part of the first one only, with the shift and control flags set exactly when some token names that modifier |
| IOMappings.MapKeyLayout | branches/factory2/source/input/IOMapping.cpp:570-572 | the map key keeps the code's key part in its low byte, the input type in the byte above and the code's modifier flags |
| IOMappings.CheckIORequirements | branches/factory2/source/input/IOMapping.cpp:53-133 | true exactly when the mapping is due: every code in the required edge or hold state with exactly its modifiers, the matching mouse delta non-zero for motion, and always for any other type |
| IOMappings.IOMap.constructor | branches/factory2/source/input/IOMapping.cpp:143-185 | a fresh input state and no mapping |
| IOMappings.IOMap.GetUserInput | branches/factory2/source/input/IOMapping.cpp:143-146 | the event is handed to the input state |
| IOMappings.IOMap.AddIOMapping | branches/factory2/source/input/IOMapping.cpp:176-179 | the mapping is stored under the key, replacing any earlier one |
| IOMappings.IOMap.ClearMappings | branches/factory2/source/input/IOMapping.cpp:182-185 | no mapping is left |
| IOMappings.IOMap.BindIO | branches/factory2/source/input/IOMapping.cpp:560-577 | a non-zero code is bound under code + (type << 8) with a one-code requirement; code 0 binds nothing |
| IOMappings.IOMap.BindKey | branches/factory2/source/input/IOMapping.cpp:518-526 | binds the code GetInputCode computes from the '+'-separated tokens under the keyboard input type, and nothing when that code is 0 |
| IOMappings.IOMap.BindMouseButton | branches/factory2/source/input/IOMapping.cpp:532-540 | binds the code of the tokens under the mouse input type, and nothing when that code is 0 |
| IOMappings.IOMap.BindMouseAction | branches/factory2/source/input/IOMapping.cpp:545-553 | the action name gives both the code and the mouse input type |
| IOMappings.IOMap.ActOnUserInput | branches/factory2/source/input/IOMapping.cpp:149-163 | the due mappings are exactly those whose requirements the state meets, then the state moves to the next frame |
| IOMappings.OnPressType | branches/factory2/source/input/IOMapping.cpp:392-393 | "onpress" on the keyboard is the key on-press type |
| IOMappings.SplitCA | branches/factory2/source/input/IOMapping.cpp:455 | "c+a" splits into "c" and "a" |
| IOMappings.TableCA | branches/factory2/source/input/IOMapping.cpp:213-373 | a key table naming the control key C and a key A |
| IOMappings.TokensCA | branches/factory2/source/input/IOMapping.cpp:449-463 | "c+a" parses as "C" and "A" |
| IOMappings.EffectsCA | branches/factory2/source/input/IOMapping.cpp:478-492 | with that table, "C" is the control modifier and "A" the key part |
| IOMappings.CtrlACode | branches/factory2/source/input/IOMapping.cpp:468-511 | the code of "c+a" has the A key as its key part, the control flag and no shift |
| IOMappings.CtrlACodeOf | branches/factory2/source/input/IOMapping.cpp:468-511 | a control token followed by a key token gives a non-zero code with that key, control and no shift |
| IOMappings.BindCtrlA | branches/factory2/source/input/IOMapping.cpp:518-577 | binding "c+a" on press adds one mapping whose key has the A key in its low byte, the on-press type above it, control set and shift clear |
| IOMappings.CtrlAKeys | branches/factory2/source/input/IOMapping.cpp:560-577 | the map key bound for "c+a" on press has that layout |
| GuiManagers.DefaultName | branches/tourney2013/source/gui/GuiManager.cpp:950-952 | "unnamed_" followed by the decimal text of the id |
| GuiManagers.DefaultNamesDistinct | branches/tourney2013/source/gui/GuiManager.cpp:948-954 | elements with different ids never get the same default name |
| GuiManagers.BoundedShrinks | branches/tourney2013/source/gui/GuiManager.cpp:375-399 | removing elements never makes the tree below an element deeper |
| GuiManagers.BelowGrows | branches/tourney2013/source/gui/GuiManager.cpp:375-399 | an element reached from another after some removals was reached before them |
| GuiManagers.RemovalStep | branches/tourney2013/source/gui/GuiManager.cpp:386-389 | removing one child's subtree after part of its parent's removal is still part of the parent's removal |
| GuiManagers.RemovalLast | branches/tourney2013/source/gui/GuiManager.cpp:394-397 | once every child is gone, dropping the element and its name completes its removal |
| GuiManagers.DescendantsGo | branches/tourney2013/source/gui/GuiManager.cpp:375-399 | an element is gone as soon as one of its ancestors is |
| GuiManagers.RemovalIsExactlyBelow | branches/tourney2013/source/gui/GuiManager.cpp:375-399 | removing an element takes exactly the registered elements below it |
| GuiManagers.GuiManager.constructor | branches/tourney2013/source/gui/GuiManager.cpp:261-276 | the counter starts at 1, both maps are empty and the eleven default factory keys are registered |
| GuiManagers.GuiManager.AllocateGuiId | branches/tourney2013/source/gui/GuiManager.cpp:576-580 | returns the counter, which must be positive, and advances it by one modulo 2^32; nothing else changes |
| GuiManagers.GuiManager.RegisterElementFactory | branches/tourney2013/source/gui/GuiManager.cpp:548-553 | adds the key; nothing else changes |
| GuiManagers.GuiManager.RemoveElementFactory | branches/tourney2013/source/gui/GuiManager.cpp:557-562 | drops the key, an unknown key changing nothing; nothing else changes |
| GuiManagers.GuiManager.ClearElementFactories | branches/tourney2013/source/gui/GuiManager.cpp:564-567 | no key is left; nothing else changes |
| GuiManagers.GuiManager.NumElements | branches/tourney2013/source/gui/GuiManager.cpp:417-420 | the number of registered ids |
| GuiManagers.GuiManager.GetElement | branches/tourney2013/source/gui/GuiManager.cpp:425-429 | an element exactly when the id is registered, and then the registered one |
| GuiManagers.GuiManager.GetElementByName | branches/tourney2013/source/gui/GuiManager.cpp:440-445 | an element exactly when the name is registered to an id below 2^31 that is itself registered, and then that element |
| GuiManagers.GuiManager.ModifyRegisteredElementName | branches/tourney2013/source/gui/GuiManager.cpp:831-848 | succeeds exactly when the old name is registered and the new one is not; then the new name carries the old one's id and the old one is gone; otherwise nothing changes |
| GuiManagers.GuiManager.AddBase | branches/tourney2013/source/gui/GuiManager.cpp:934-960 | null gives null and changes nothing; otherwise the element, with an empty name replaced by unnamed_<id>, is stored under the id and its name maps to the id |
| GuiManagers.GuiManager.CreateElement | branches/tourney2013/source/gui/GuiManager.cpp:516-543 | an unknown kind gives null and registers nothing; a known kind is registered under a fresh id from the counter with its default name |
| GuiManagers.GuiManager.RemoveAll | branches/tourney2013/source/gui/GuiManager.cpp:355-369 | both maps are empty; counter and factories kept |
| GuiManagers.GuiManager.Remove | branches/tourney2013/source/gui/GuiManager.cpp:375-399 | an unknown id changes nothing; otherwise the element and everything below it leave both maps, and nothing else does |
| GuiManagers.GuiManager.RemoveByName | branches/tourney2013/source/gui/GuiManager.cpp:401-405 | a name the lookup does not find changes nothing; otherwise the element found is removed as Remove removes it |
| GuiManagers.SmallDefaultNames | branches/tourney2013/source/gui/GuiManager.cpp:950-952 | ids 1, 2 and 6 are named unnamed_1, unnamed_2 and unnamed_6 |
| GuiManagers.CreatedElementsAreNamedById | branches/tourney2013/source/gui/GuiManager.cpp:516-580 | a button and then a window created on a fresh manager get ids 1 and 2 and the names unnamed_1 and unnamed_2; the window is found by its name and two elements are registered |
| GuiManagers.UnknownKindCreatesNothing | branches/tourney2013/source/gui/GuiManager.cpp:538-542 | a kind without a factory gives null and registers nothing |
| GuiManagers.AddingNullRegistersNothing | branches/tourney2013/source/gui/GuiManager.cpp:936-937 | a null base is not registered |
| GuiManagers.RenameMovesTheId | branches/tourney2013/source/gui/GuiManager.cpp:831-848 | a rename to a free name moves the element there, the old name then finding nothing; a rename onto a taken name and a rename of an unknown name both fail |
| GuiManagers.RemovingTheWindow | branches/tourney2013/source/gui/GuiManager.cpp:375-399 | removing a window whose child is a button leaves only the unrelated element and its name |
| GuiManagers.RemoveTakesChildren | branches/tourney2013/source/gui/GuiManager.cpp:375-399 | removing a window takes its child button with it and keeps the unrelated element |
| GuiManagers.RemoveAllEmpties | branches/tourney2013/source/gui/GuiManager.cpp:355-369 | after RemoveAll nothing is found and no element is counted |
| Decimals.Digit | branches/tourney2013/source/gui/GuiManager.cpp:950-951 | the character of a digit is between '0' and '9' and stands for that digit |
| Decimals.Decimal | branches/tourney2013/source/gui/GuiManager.cpp:950-951 | the decimal text of a number is a non-empty string of digits |
| Decimals.DecimalRoundTrip | branches/tourney2013/source/gui/GuiManager.cpp:950-951 | the decimal text of a number reads back as that number |
| PerformanceMetrics.NewEvent | branches/merge/source/utils/Performance.cpp:380-388 | a fresh event: every counter zero, the minimum frame time at kMagicNumber 9999999, the maximum 0, not called this frame, no entry time and no frame recorded |
| PerformanceMetrics.ExtremesAreExtreme | branches/merge/source/utils/Performance.cpp:116-125 | the running maximum bounds the start value and every recorded frame time and is one of them; the running minimum likewise from below |
| PerformanceMetrics.TrackedAsWritten | branches/merge/source/utils/Performance.cpp:116-125 | as written: a called event gets its frame recorded with the frame number and time, and only the extremes change beyond that; an event not called is unchanged |
| PerformanceMetrics.Tracked | branches/merge/source/utils/Performance.cpp:116-125 | the corrected update: the same frame record, with the maximum and the minimum each compared on its own |
| PerformanceMetrics.TrackedAsWrittenKeepsBounds | branches/merge/source/utils/Performance.cpp:116-125 | the as-written update keeps the maximum equal to the largest recorded frame time, and the minimum between the smallest recorded time and kMagicNumber, being kMagicNumber or a recorded time |
| PerformanceMetrics.AgreeingExtremesAreBounded | branches/merge/source/utils/Performance.cpp:116-125 | exact extremes are within those bounds |
| PerformanceMetrics.TrackedKeepsExtremes | branches/merge/source/utils/Performance.cpp:116-125 | the corrected update keeps both extremes equal to those of the recorded frames |
| PerformanceMetrics.AsWrittenMissesTheMinimum | branches/merge/source/utils/Performance.cpp:120-124 | a fresh event timed once at 5 ms keeps the minimum at kMagicNumber although 5 is its only frame time |
| PerformanceMetrics.MillisPer | branches/merge/source/utils/Performance.cpp:433-437 | every unit holds a positive number of milliseconds |
| PerformanceMetrics.GetScaledUnit | branches/merge/source/utils/Performance.cpp:430-450 | the time in a unit, multiplied by the milliseconds in that unit, gives the milliseconds back |
| PerformanceMetrics.AMinuteInEveryUnit | branches/merge/source/utils/Performance.cpp:362-370 | 60000 ms is 60000 ms, 60 s, 1 minute, 1/60 hour and 1/1440 day |
| PerformanceMetrics.CallsPerFrame | branches/merge/source/utils/Performance.cpp:136-152 | the call count when no frame was counted, otherwise calls divided by frames, which is at least 1 when there was a call and frames never exceed calls |
| PerformanceMetrics.Entered | branches/merge/source/utils/Performance.cpp:40-58 | one more call, its entry time on top of the stack, the event marked called, and one more frame the first time in a frame; nothing else changes |
| PerformanceMetrics.Left | branches/merge/source/utils/Performance.cpp:62-81 | the last entry time is popped and the time since it is added to both the total and the frame time; nothing else changes |
| PerformanceMetrics.Cleared | branches/merge/source/utils/Performance.cpp:97-98 | the called-this-frame flag and the frame time are cleared; nothing else changes |
| PerformanceMetrics.StepsKeepEventOk | branches/merge/source/utils/Performance.cpp:40-131 | entering, leaving, clearing and tracking keep an event filed under its own id, with no more frames than calls and its extremes within bounds |
| PerformanceMetrics.MapStepKeepsOk | branches/merge/source/utils/Performance.cpp:85-131 | clearing or tracking every event of a well-formed map keeps every event well-formed |
| PerformanceMetrics.ClearAll | branches/merge/source/utils/Performance.cpp:90-99 | every event is cleared, and no event is added or dropped |
| PerformanceMetrics.TrackAll | branches/merge/source/utils/Performance.cpp:110-126 | every event is tracked as written, and no event is added or dropped |
| PerformanceMetrics.PerformanceMetricManager.constructor | branches/merge/source/utils/Performance.cpp:34-36 | no event, frame number 0, events enabled |
| PerformanceMetrics.PerformanceMetricManager.ContainEvent | branches/merge/source/utils/Performance.cpp:399-403 | true exactly when an event is stored under the id |
| PerformanceMetrics.PerformanceMetricManager.GetEvent | branches/merge/source/utils/Performance.cpp:408-424 | the stored event, or a fresh one that is stored under the id first |
| PerformanceMetrics.PerformanceMetricManager.EnterEvent | branches/merge/source/utils/Performance.cpp:40-58 | when enabled, the event (created if absent) is entered at the current time; when disabled nothing changes |
| PerformanceMetrics.PerformanceMetricManager.LeaveEvent | branches/merge/source/utils/Performance.cpp:62-81 | when enabled, the event, which must be open, is left at the current time; when disabled nothing changes |
| PerformanceMetrics.PerformanceMetricManager.StartSimulationFrame | branches/merge/source/utils/Performance.cpp:85-101 | when enabled, every event is cleared; when disabled nothing changes |
| PerformanceMetrics.PerformanceMetricManager.EndSimulationFrame | branches/merge/source/utils/Performance.cpp:105-131 | when enabled, every event is tracked as written and the frame number advances; when disabled nothing changes |
| PerformanceMetrics.PerformanceMetricManager.GetCallsPerFrame | branches/merge/source/utils/Performance.cpp:136-152 | the calls per frame of the stored event |
| PerformanceMetrics.NestedScopedCalls | branches/merge/source/utils/Performance.cpp:270-318 | a scoped event entered again inside itself counts two calls in one frame, ends with an empty stack, totals both durations and gives 2 calls per frame |
| PerformanceMetrics.TwoTimedFrames | branches/merge/source/utils/Performance.cpp:321-360 | an event timed in two frames records both frames and counts two; the maximum is the larger time, but a time that raised the maximum never reached the minimum |
| PerformanceMetrics.TwoTimedFramesCorrected | branches/merge/source/utils/Performance.cpp:321-360 | with the corrected update the same two frames give the larger time as maximum and the smaller as minimum |
| Simulations.Simulation.constructor | source/game/Simulation.cpp:16-27 | an empty registry with an empty set for each of the four indexed type bits 1, 2, 4, 8 |
| Simulations.Simulation.Find | source/game/Simulation.cpp:84-88 | non-null exactly when the id is registered, and then the entity filed under it |
| Simulations.Simulation.AddSimEntity | source/game/Simulation.cpp:41-56 | for an id not yet taken: the entity is filed under its id, joins the entity set and the added list, and joins the set of each of its indexed type bits; the registry invariant is kept |
| Simulations.AddToTypes | source/game/Simulation.cpp:48-54 | the entity joins exactly the sets of the low type bits of its type word |
| Simulations.Simulation.Remove | source/game/Simulation.cpp:63-69 | only sets the removal flag of the entity under the id (nothing for an unknown id); no index changes |
| Simulations.Simulation.Clear | source/game/Simulation.cpp:72-77 | empties the id map and the entity set, and leaves the per-type sets and the added list as they were |
| Simulations.Simulation.ProcessTick | source/game/Simulation.cpp:102-178 | after the tick the id map holds exactly the unflagged entries, the entity set and each type set lose exactly the flagged entities, the added list is empty, and the registry invariant holds |
| Simulations.RemovalPass | source/game/Simulation.cpp:145-176 | the removal loop over a snapshot of the id map yields the unflagged entries, the entity set less the flagged entities, and each type set less the flagged entities of that type |
| Simulations.VisitForRemoval | source/game/Simulation.cpp:146-172 | one visit keeps the pass invariant: a flagged entity leaves the id map, the entity set and the sets of its type bits |
| Simulations.DropFromTypes | source/game/Simulation.cpp:159-168 | the entity leaves exactly the sets of its low type bits |
| Simulations.KeptValues | source/game/Simulation.cpp:145-176 | the entities left in the id map after the pass are exactly the unflagged ones |
| Simulations.NoLowTypeBits | source/game/Simulation.cpp:49-53 | a type word with the four low bits clear is filed under no type set |
| Simulations.Simulation.GetEntities | source/game/Simulation.cpp:210-222 | the result is exactly the union of the type sets of the indexed bits set in the mask, so it holds every registered entity sharing such a bit |
| SimulationClients.RemovalWaitsForTheTick | source/game/Simulation.cpp:58-69 | a removed entity is still found until the next tick, and afterwards is neither found nor typed |
| SimulationClients.HighTypeBitsAreNotIndexed | source/game/Simulation.cpp:22-26 | an entity typed only above bit 3 is found by id and through no mask |
| SimulationClients.GetEntitiesByMask | source/game/Simulation.cpp:210-222 | an entity of type 5 is returned for mask 4 and not for mask 2 |
| SimulationClients.ClearLeavesTypeSets | source/game/Simulation.cpp:72-77 | after clear the id is gone but the type set still returns the entity |
| Simulations.SimEntity.constructor | source/game/Simulation.cpp:41-56 | an entity with the given id and type word, not flagged for removal |
| Simulations.SimEntity.SetRemoved | source/game/Simulation.cpp:63-69 | the entity is flagged for removal |
| Simulations.TypeBit | source/game/Simulation.cpp:22-26 | each indexed bit 1 << i is one of the four indexed type words |
| Simulations.FlaggedAmongStep | source/game/Simulation.cpp:146-172 | visiting one more id adds that entry's entity to the flagged ones exactly when it is flagged (and of the type, for a type set) |
| Simulations.FlaggedAmongAll | source/game/Simulation.cpp:145-176 | once every id is visited, the flagged entities seen are all the flagged entities, overall and per type |
| Simulations.KeptButStep | source/game/Simulation.cpp:146-172 | visiting one id drops it from the kept entries exactly when it is flagged |
| Simulations.ValuesOfUpdate | source/game/Simulation.cpp:41-56 | filing an entity under a new id adds exactly that entity to the registered ones |
| Simulations.TypesStep | source/game/Simulation.cpp:159-168 | one visit keeps each type set equal to the original less the flagged entities of that type visited so far |
| Simulations.PassedAll | source/game/Simulation.cpp:145-176 | after the last visit the id map holds exactly the unflagged entries, and the entity set and each type set have lost exactly the flagged entities |
| SceneObjects.SceneIdOf | branches/tourney-merge-2013-three/source/render/SceneObject.cpp:229-233 | the scene id's low four bits are the type, and the rest is the simulation id modulo 2^28 (its top four bits are shifted out of 32 bits) |
| SceneObjects.SimIdOf | branches/tourney-merge-2013-three/source/render/SceneObject.cpp:224-227 | the simulation id is the scene id without its four type bits: below 2^28, and 16 times it is the largest multiple of 16 not above the scene id |
| SceneObjects.SceneIdRoundTrip | branches/tourney-merge-2013-three/source/render/SceneObject.cpp:224-233 | unpacking a packed id gives back every simulation id below 2^28 |
| SceneObjects.SceneIdsDistinct | branches/tourney-merge-2013-three/source/render/SceneObject.cpp:224-233 | distinct (simulation id, type) pairs below the limits pack to distinct scene ids |
| SceneObjects.HighSimIdsAreShiftedOut | branches/tourney-merge-2013-three/source/render/SceneObject.cpp:229-233 | simulation ids 2^28 apart pack to the same scene id |
| SceneObjects.LowerChar | branches/tourney-merge-2013-three/source/render/SceneObject.cpp:62 | ::tolower in the C locale: upper-case ASCII letters move down by 32, every other character is kept |
| SceneObjects.Lower | branches/tourney-merge-2013-three/source/render/SceneObject.cpp:62 | lower-casing keeps the length and lowers each character |
| SceneObjects.LowerIdempotent | branches/tourney-merge-2013-three/source/render/SceneObject.cpp:62 | lower-casing twice is lower-casing once |
| SceneObjects.LowerTrue | branches/tourney-merge-2013-three/source/render/SceneObject.cpp:126-127 | only the 16 case spellings of "true" lower to "true" |
| SceneObjects.MaterialTypeOf | branches/tourney-merge-2013-three/source/render/SceneObject.cpp:55-96 | a non-default shader type is produced only from a loaded shader, under its number |
| SceneObjects.MaterialTypeIgnoresCase | branches/tourney-merge-2013-three/source/render/SceneObject.cpp:55-96 | known names are matched whatever their case and whatever the shader loader says; any other string gives the loaded shader or EMT_SOLID |
| SceneObjects.ConvertFlag | branches/tourney-merge-2013-three/source/render/SceneObject.cpp:109-158 | a flag comes out exactly when the upper-cased name is one of the 13 known flags, with that flag and the truth value of the input text; otherwise the default flag |
| SceneObjects.FlagValues | branches/tourney-merge-2013-three/source/render/SceneObject.cpp:126-127 | "TRUE" and "1" read as true, "0" as false |
| SceneObjects.LightingFlag | branches/tourney-merge-2013-three/source/render/SceneObject.cpp:109-158 | a name that upper-cases to LIGHTING gives the lighting flag with the input's truth value |
| SceneObjects.UnknownFlag | branches/tourney-merge-2013-three/source/render/SceneObject.cpp:155 | an unknown flag name gives the default flag |
| SceneObjects.FlagsOf | branches/tourney-merge-2013-three/source/render/SceneObject.cpp:380-407 | the collected flags are at most one per property and never the default flag |
| SceneObjects.CollectMaterialFlags | branches/tourney-merge-2013-three/source/render/SceneObject.cpp:380-407 | the flag loop over the render properties collects exactly the flags FlagsOf describes, in property order |
| SceneObjects.LightingFlagProperty | branches/tourney-merge-2013-three/source/render/SceneObject.cpp:397-405 | the property "MaterialFlagLighting" yields the lighting flag with its value |
| SceneObjects.CollisionNeedsMask | branches/tourney-merge-2013-three/source/render/SceneObject.cpp:683-686 | no template or a zero collision mask never collides; any non-zero mask does |
| SceneObjects.LowersTo | branches/tourney-merge-2013-three/source/render/SceneObject.cpp:62 | a character that lowers to a lower-case letter is that letter or its capital |
| SceneObjects.UpperLighting | branches/tourney-merge-2013-three/source/render/SceneObject.cpp:397-405 | "Lighting" and "lighting" both upper-case to the table key LIGHTING |
| PropertyMaps.TokenizePropertySpec | branches/adziuk_tournament/source/game/objects/PropertyMap.cpp:381-398 | the tokens are the maximal runs of characters other than '.', none empty and none holding a '.', and it succeeds exactly when there is one |
| PropertyMaps.TokensAreClean | branches/adziuk_tournament/source/game/objects/PropertyMap.cpp:381-398 | no token is empty or holds a '.' |
| PropertyMaps.NoTokensIffOnlyDots | branches/adziuk_tournament/source/game/objects/PropertyMap.cpp:381-398 | a spec gives no token exactly when it is made of dots only |
| PropertyMaps.TokensOfJoin | branches/adziuk_tournament/source/game/objects/PropertyMap.cpp:381-398 | tokenizing a dotted path of non-empty, dot-free names gives the names back |
| PropertyMaps.FirstNamed | branches/adziuk_tournament/source/game/objects/PropertyMap.cpp:318-341 | the first element with the name, or none exactly when no element has it |
| PropertyMaps.Descend | branches/adziuk_tournament/source/game/objects/PropertyMap.cpp:330-345 | following a path ends at an element named by the path's last name |
| PropertyMaps.Section | branches/adziuk_tournament/source/game/objects/PropertyMap.cpp:305-346 | a section is found only for a spec with tokens, and is named by its last token |
| PropertyMaps.SectionIn | branches/adziuk_tournament/source/game/objects/PropertyMap.cpp:305-346 | the loop down the path of names finds exactly Section |
| PropertyMaps.XmlChainHasSection | branches/adziuk_tournament/source/game/objects/PropertyMap.cpp:353-373 | the loop over the chain finds exactly ChainSection |
| PropertyMaps.HasValueAsksTheFirstSectionOnly | branches/adziuk_tournament/source/game/objects/PropertyMap.cpp:142-165 | hasValue asks only the first document with the section, so a child template's empty section hides its parent's text, which getValueString still finds |
| PropertyMaps.GetValueString | branches/adziuk_tournament/source/game/objects/PropertyMap.cpp:224-242 | found exactly when some document has the value, with the first such value, else "" |
| PropertyMaps.InvalidMapFindsNothing | branches/adziuk_tournament/source/game/objects/PropertyMap.cpp:34-37 | a map with no documents finds no section and no value |
| PropertyMaps.GetBoolAsWritten | branches/adziuk_tournament/source/game/objects/PropertyMap.cpp:418-429 | the out value is set from "true"/"1" in any case when a value is found and kept otherwise (its result is always false) |
| PropertyMaps.GetBool | branches/adziuk_tournament/source/game/objects/PropertyMap.cpp:418-429 | the result says whether a value was found, and the out value is read from it exactly then |
| PropertyMaps.GetBoolReportsFailureOnSuccess | branches/adziuk_tournament/source/game/objects/PropertyMap.cpp:418-429 | a section reading "true" is read as true, yet the as-written result is false where the intended one is true |
| PropertyMaps.AttributeMapSpec | branches/adziuk_tournament/source/game/objects/PropertyMap.cpp:173-202 | every attribute name is a key, holding the value of the last attribute of that name |
| PropertyMaps.ReadAttributes | branches/adziuk_tournament/source/game/objects/PropertyMap.cpp:181-198 | the attribute loop builds exactly AttributeMap |
| PropertyMaps.GetAttributes | branches/adziuk_tournament/source/game/objects/PropertyMap.cpp:173-202 | the attributes of the first section in the chain, or none when no document has it |
| PropertyMaps.StrLessIrreflexive | branches/adziuk_tournament/source/game/objects/PropertyMap.cpp:93-135 | std::string's < is irreflexive |
| PropertyMaps.StrLessTotal | branches/adziuk_tournament/source/game/objects/PropertyMap.cpp:93-135 | two different strings are ordered one way or the other |
| PropertyMaps.StrLessAsymmetric | branches/adziuk_tournament/source/game/objects/PropertyMap.cpp:93-135 | std::string's < is asymmetric |
| PropertyMaps.StrLessTransitive | branches/adziuk_tournament/source/game/objects/PropertyMap.cpp:93-135 | std::string's < is transitive |
| PropertyMaps.PutSpec | branches/adziuk_tournament/source/game/objects/PropertyMap.cpp:112-115 | std::map's `m[k] = v` keeps the keys sorted, sets k and leaves every other key |
| PropertyMaps.PutAllSpec | branches/adziuk_tournament/source/game/objects/PropertyMap.cpp:99-135 | writing pairs in order gives a sorted map in which each key holds its last pair's value |
| PropertyMaps.LastOfAppend | branches/adziuk_tournament/source/game/objects/PropertyMap.cpp:99-121 | a later pair for a key wins over an earlier one |
| PropertyMaps.PutChildren | branches/adziuk_tournament/source/game/objects/PropertyMap.cpp:105-119 | the inner loop writes each child with text under its name |
| PropertyMaps.GetPropChildren | branches/adziuk_tournament/source/game/objects/PropertyMap.cpp:93-135 | the result is the std::map built from the child pairs of every document, oldest first, read out in key order |
| PropertyMaps.PropChildrenSortedNewestWins | branches/adziuk_tournament/source/game/objects/PropertyMap.cpp:93-135 | the children come out in strictly increasing key order, and each key holds the value the newest document gives it, else the older ones |
| PropertyMaps.ScanIsClean | branches/adziuk_tournament/source/game/objects/PropertyMap.cpp:381-398 | the tokens scanned so far are clean and the pending token holds no '.' |
| PropertyMaps.ScanWord | branches/adziuk_tournament/source/game/objects/PropertyMap.cpp:381-398 | reading a dot-free word extends the pending token by it |
| PropertyMaps.ChainSectionFirst | branches/adziuk_tournament/source/game/objects/PropertyMap.cpp:353-373 | a section is found exactly when some document has it, and then it is the section of the first such document |
| PropertyMaps.FirstValueFirst | branches/adziuk_tournament/source/game/objects/PropertyMap.cpp:224-242 | a value is found exactly when some document has one, and then it is the value of the first such document |
| PropertyMaps.PutAbove | branches/adziuk_tournament/source/game/objects/PropertyMap.cpp:112-115 | inserting into a sorted map keeps every key above a bound that the new key and the old keys are above |
| PropertyMaps.LastOf | branches/adziuk_tournament/source/game/objects/PropertyMap.cpp:99-121 | the value found for a key is the value of some pair with that key |
| PropertyMaps.PutAllAppend | branches/adziuk_tournament/source/game/objects/PropertyMap.cpp:99-135 | writing two runs of pairs is writing the first, then the second |
| PropertyMaps.TextPairs | branches/adziuk_tournament/source/game/objects/PropertyMap.cpp:105-119 | no more pairs than elements |
| FeatureVectors.Trunc | source/ai/AI.cpp:65-75 | static_cast<int> of a whole-valued double gives that value |
| FeatureVectors.NormalizedInUnitRange | source/ai/AI.cpp:77-91 | with every positive span rescaled, a valid vector normalizes into [0, 1] |
| FeatureVectors.DenormalizeNormalized | source/ai/AI.cpp:77-104 | denormalize undoes the (span-corrected) normalize on every valid vector |
| FeatureVectors.DenormalizedEnds | source/ai/AI.cpp:93-104 | 0 denormalizes to the lower and 1 to the upper bounds |
| FeatureVectors.DenormalizedValidates | source/ai/AI.cpp:93-119 | every vector of the unit cube denormalizes to a valid vector |
| FeatureVectors.AsWrittenSkipsUnitSpans | source/ai/AI.cpp:77-91 | with bounds [3, 4] normalize as written leaves 3 as 3 (outside [0, 1]) and denormalize makes it 6; the corrected normalize gives 0 |
| FeatureVectors.AsWrittenAgreesFromZero | source/ai/AI.cpp:77-91 | as written and corrected normalize agree when every span-1 position starts at 0 |
| FeatureVectors.RangeAt | source/ai/AI.cpp:163-168 | the inner loop yields one copy per whole value from min to max, in increasing order |
| FeatureVectors.ExpandLength | source/ai/AI.cpp:161-169 | one step multiplies the list length by the value count |
| FeatureVectors.ExpandMembers | source/ai/AI.cpp:161-169 | every vector of a step is a listed vector with the position set to a value in range |
| FeatureVectors.StepsLength | source/ai/AI.cpp:151-173 | after k steps the list holds the product of the first k value counts |
| FeatureVectors.StepsShape | source/ai/AI.cpp:151-173 | after k steps every vector has whole in-bounds values at the first k positions and lower bounds elsewhere |
| FeatureVectors.EnumerationShape | source/ai/AI.cpp:151-173 | enumerate yields the product of the value counts, each vector valid with whole values |
| FeatureVectors.ExpandList | source/ai/AI.cpp:159-170 | the two inner loops build exactly one enumerate step |
| FeatureVectors.ReadFlag | source/ai/AI.cpp:180 | `>> bool` reads exactly the numbers 0 and 1 |
| FeatureVectors.ReadValue | source/ai/AI.cpp:184-185 | `>> int` reads whole numbers, `>> double` any number |
| FeatureVectors.ParseText | source/ai/AI.cpp:176-202 | the text of some bounds followed by anything reads as those bounds followed by what the rest reads |
| FeatureVectors.TextRoundTrip | source/ai/AI.cpp:176-202 | bounds read back from their text; a triple cut short fails with the earlier bounds read; a word where a flag is due ends reading successfully |
| FeatureVectors.ParsedAreReadable | source/ai/AI.cpp:176-202 | discrete bounds read from text have whole limits |
| FeatureVectors.FeatureVectorInfo.SetContinuous | source/ai/AI.cpp:30-36 | position i becomes continuous with the given limits, the rest unchanged, the info stays well formed |
| FeatureVectors.FeatureVectorInfo.SetDiscrete | source/ai/AI.cpp:47-53 | position i becomes discrete with the given whole limits |
| FeatureVectors.FeatureVectorInfo.AddContinuous | source/ai/AI.cpp:38-45 | appends a continuous position and returns its index |
| FeatureVectors.FeatureVectorInfo.AddDiscrete | source/ai/AI.cpp:55-62 | appends a discrete position and returns its index |
| FeatureVectors.FeatureVectorInfo.Add | source/ai/AI.cpp:65-75 | appends the bound, discrete limits truncated; a readable bound is read back by getBound |
| FeatureVectors.FeatureVectorInfo.Validate | source/ai/AI.cpp:107-119 | true exactly when the size matches and every value lies within its bounds |
| FeatureVectors.FeatureVectorInfo.GetInstance | source/ai/AI.cpp:122-131 | the lower bounds, a valid vector |
| FeatureVectors.FeatureVectorInfo.Normalize | source/ai/AI.cpp:77-91 | the loop computes normalize as written |
| FeatureVectors.FeatureVectorInfo.Denormalize | source/ai/AI.cpp:93-104 | the loop computes denormalize |
| FeatureVectors.FeatureVectorInfo.Enumerate | source/ai/AI.cpp:150-173 | the product of the value counts many vectors, all valid, last position fastest |
| FeatureVectors.FeatureVectorInfo.Convert | source/ai/AI.cpp:175-202 | one position added per triple read, in order; the result says whether reading ended well |
| FeatureVectors.UnitBounds | source/ai/AI.cpp:210-216 | n continuous positions bounded by [0, 1] |
| FeatureVectors.AgentInitInfo.constructor | source/ai/AI.cpp:210-216 | sensors, actions and rewards of the given sizes, every position continuous (not discrete) and bounded by [0, 1] |
| FeatureVectors.ReadTriple | source/ai/AI.cpp:181-199 | the triple at the head of the text keeps the flag that was read, and is absent when its min or max cannot be read |
| FeatureVectors.ParseOne | source/ai/AI.cpp:176-202 | the text of one readable bound reads back as that bound followed by what the rest of the text reads |
| FeatureVectors.ParseStep | source/ai/AI.cpp:181-199 | each triple that is read joins the bounds read before it, in order |
| FeatureVectors.SetKeepsShape | source/ai/AI.cpp:163-168 | setting the next position to a whole in-bounds value extends an enumerated prefix by one position |
| FeatureVectors.ExpandKeepsShape | source/ai/AI.cpp:159-170 | every vector an enumerate step yields is enumerated one position further |
| FeatureVectors.FeatureVectorInfo.Sized | source/ai/AI.cpp:210-216 | a well-formed info with the given number of continuous positions, all bounded by [0, 0] |
| FeatureVectors.FeatureVectorInfo.AddRead | source/ai/AI.cpp:186-197 | a discrete triple goes through addDiscrete and a continuous one through addContinuous; either way the limits are appended and the info stays well formed |
| FeatureVectorArithmetic.GetInstance | branches/cs394n-f11/source/ai/AI.cpp:117-134 | a valid vector whose entry is 0 exactly where 0 lies within the bounds, and the lower bound elsewhere |
| FeatureVectorArithmetic.InstanceNearestZero | branches/cs394n-f11/source/ai/AI.cpp:117-134 | unless the bounds lie wholly below 0, the instance value is the allowed value nearest to 0 |
| FeatureVectorArithmetic.InstanceBelowZero | branches/cs394n-f11/source/ai/AI.cpp:117-134 | below 0 the lower bound is taken, the allowed value farthest from 0 |
| FeatureVectorArithmetic.AgentInstanceIsZero | branches/cs394n-f11/source/ai/AI.cpp:117-134 | the instance of AgentInitInfo's [0, 1] positions is all zeros |
| FeatureVectorArithmetic.SumDifferenceInverse | branches/cs394n-f11/source/ai/AI.cpp:216-272 | subtraction undoes addition, adding the difference reaches the other operand, addition commutes |
| FeatureVectorArithmetic.ScaleDivideInverse | branches/cs394n-f11/source/ai/AI.cpp:274-318 | division undoes scaling by a non-zero factor, and scaling distributes over the sum |
| FeatureVectorArithmetic.Plus | branches/cs394n-f11/source/ai/AI.cpp:216-229 | the componentwise sum, of the operands' length |
| FeatureVectorArithmetic.Minus | branches/cs394n-f11/source/ai/AI.cpp:245-258 | the componentwise difference, of the operands' length |
| FeatureVectorArithmetic.Times | branches/cs394n-f11/source/ai/AI.cpp:274-284 | every component multiplied by the scalar, length kept |
| FeatureVectorArithmetic.Over | branches/cs394n-f11/source/ai/AI.cpp:297-307 | every component divided by the scalar, length kept |
| FeatureVectorArithmetic.PlusAssign | branches/cs394n-f11/source/ai/AI.cpp:231-243 | the left operand becomes the componentwise sum |
| FeatureVectorArithmetic.MinusAssign | branches/cs394n-f11/source/ai/AI.cpp:260-272 | the left operand becomes the componentwise difference |
| FeatureVectorArithmetic.TimesAssign | branches/cs394n-f11/source/ai/AI.cpp:286-295 | the left operand is scaled in place |
| FeatureVectorArithmetic.OverAssign | branches/cs394n-f11/source/ai/AI.cpp:309-318 | the left operand is divided in place |
| FeatureVectorArithmetic.AddThenSubtract | branches/cs394n-f11/source/ai/AI.cpp:231-272 | `v += d; v -= d` leaves v unchanged |
| Approximators.Quantize | tags/tourney2011/source/ai/rl/Approximator.cpp:89-111 | the vector itself with no bins, else each position replaced by its quantized value |
| Approximators.QuantizedShape | tags/tourney2011/source/ai/rl/Approximator.cpp:89-111 | no bins is the identity; the length is kept and discrete positions are truncated to whole numbers |
| Approximators.BinPosition | tags/tourney2011/source/ai/rl/Approximator.cpp:104-107 | the source's normalised position times bins - 1 is the distance from the lower bound in bin widths plus one half, so the quantized value is the centre lo + inc * bin |
| Approximators.NearestCentre | tags/tourney2011/source/ai/rl/Approximator.cpp:63-111 | a value within its bounds falls in a bin 0..bins-1 whose centre lies within the bounds and within half a bin width of the value |
| Approximators.CentreIsFixed | tags/tourney2011/source/ai/rl/Approximator.cpp:63-111 | every bin centre is quantized to itself |
| Approximators.QuantizeIdempotent | tags/tourney2011/source/ai/rl/Approximator.cpp:89-111 | quantizing a vector within its bounds twice is quantizing it once |
| Approximators.TableApproximator.constructor | tags/tourney2011/source/ai/rl/Approximator.cpp:11-17 | the description and bin counts are kept and the table is empty |
| Approximators.TableApproximator.Copy | tags/tourney2011/source/ai/rl/Approximator.cpp:20-26 | same description, bin counts and table as the copied approximator |
| Approximators.TableApproximator.Predict | tags/tourney2011/source/ai/rl/Approximator.cpp:37-51 | the value stored under the quantized (state, action) key, 0 when there is none |
| Approximators.TableApproximator.Update | tags/tourney2011/source/ai/rl/Approximator.cpp:56-61 | the table with the quantized key set to the target and nothing else changed |
| Approximators.UpdateThenPredict | tags/tourney2011/source/ai/rl/Approximator.cpp:11-61 | a fresh table predicts 0; after update the pair and any pair quantized alike predict the target; a pair with another state key still predicts 0; an earlier copy is unaffected |
| Approximators.QuantizeOne | tags/tourney2011/source/ai/rl/Approximator.cpp:97-108 | one position is quantized exactly as the quantize function defines it |
| Approximators.BinInRange | tags/tourney2011/source/ai/rl/Approximator.cpp:104-107 | a value within its bounds falls into one of the bins 0 to bins - 1 |
| Approximators.CentreNear | tags/tourney2011/source/ai/rl/Approximator.cpp:104-107 | the quantized value of an in-bounds value lies within the bounds and within half a bin width of the value |
| Approximators.ValueIdempotent | tags/tourney2011/source/ai/rl/Approximator.cpp:97-108 | quantizing a single quantized value again leaves it unchanged, for discrete and binned positions alike |
| Tiles.ModIsRemainder | trunk/source/ai/rl/tiles2.cpp:33 | mod(n, k) is the mathematical remainder, in [0, k), for negative n too |
| Tiles.RemainderUnique | trunk/source/ai/rl/tiles2.cpp:33 | (helper) the quotient and remainder in [0,k) are unique |
| Tiles.CRemWrap | trunk/source/ai/rl/tiles2.cpp:157-159 | C's remainder is the mathematical one, or that less n for a negative dividend |
| Tiles.Wrap | trunk/source/ai/rl/tiles2.cpp:157-159 | `%=` then adding n while negative yields the mathematical remainder in [0, n) |
| Tiles.HashUNH | trunk/source/ai/rl/tiles2.cpp:131-169 | the sum of the random numbers selected by each integer offset by increment times its position, reduced into [0, m) |
| Tiles.HashSumNonNegative | trunk/source/ai/rl/tiles2.cpp:131-169 | the hashed sum is never negative |
| Tiles.TileContainsPoint | trunk/source/ai/rl/tiles2.cpp:69 | the activated tile's corner is on the displaced grid and within one tile width below the point |
| Tiles.TilingCoordinates | trunk/source/ai/rl/tiles2.cpp:65-75 | one tiling's coordinates, and the displacements moved on by 1 + 2i |
| Tiles.GetTiles | trunk/source/ai/rl/tiles2.cpp:35-80 | one tile per tiling, the hash of that tiling's coordinates, each within the memory size |
| Tiles.CheckSize | trunk/source/ai/rl/tiles2.cpp:229-238 | the size passes exactly when it is at most 2 or a power of two |
| Tiles.OddNotPowerOfTwo | trunk/source/ai/rl/tiles2.cpp:232-236 | an odd number above 2 is no power of two |
| Tiles.HalfPowerOfTwo | trunk/source/ai/rl/tiles2.cpp:237 | an even number is a power of two exactly when its half is |
| Tiles.NewCollisionTable | trunk/source/ai/rl/tiles2.cpp:227-243 | none unless the size passes; else a fresh table of that size with no slot in use |
| Tiles.CollisionTable.constructor | trunk/source/ai/rl/tiles2.cpp:239-242 | every slot free, counters zero |
| Tiles.CollisionTable.Reset | trunk/source/ai/rl/tiles2.cpp:218-225 | every slot -1, counters zero |
| Tiles.CollisionTable.Usage | trunk/source/ai/rl/tiles2.cpp:250-257 | the number of slots not -1 |
| Tiles.Used | trunk/source/ai/rl/tiles2.cpp:250-257 | never more than the table size |
| Tiles.UsedNone | trunk/source/ai/rl/tiles2.cpp:218-225 | a reset table has usage 0 |
| Tiles.UsedFill | trunk/source/ai/rl/tiles2.cpp:185-189 | filling a free slot raises usage by one |
| Tiles.Probe | trunk/source/ai/rl/tiles2.cpp:194-213 | a found slot lies in the table and holds the check value or is free |
| Tiles.ProbeSlots | trunk/source/ai/rl/tiles2.cpp:194-213 | the probe loop answers what Probe defines, after at least one collision |
| Tiles.CollisionTable.HashFunction | trunk/source/ai/rl/tiles2.cpp:175-216 | calls grows by one; the answered slot is Slot's, in [0, m); only a free answered slot is written, with the check value; a clear hit or at least one collision is counted |
| Tiles.ProbeStable | trunk/source/ai/rl/tiles2.cpp:194-213 | once the found slot holds the check value the probe finds it again |
| Tiles.SlotStable | trunk/source/ai/rl/tiles2.cpp:175-216 | asking again for the same integers answers the same slot |
| Tiles.CheckValueStored | trunk/source/ai/rl/tiles2.cpp:182-188 | the check value is never -1, so storing it uses at most one slot more |
| Tiles.HashTwice | trunk/source/ai/rl/tiles2.cpp:175-216 | two calls for the same integers answer the same slot; usage grows by at most one |
| Genomes.GenePosition | branches/rtneat/source/rtneat/genome.cpp:1827-1842 | the insertion point: every earlier gene has a smaller innovation number, the gene there (if any) does not |
| Genomes.AddGene | branches/rtneat/source/rtneat/genome.cpp:1827-1842 | the list with the gene inserted at GenePosition and nothing else changed |
| Genomes.GenePositionUnique | branches/rtneat/source/rtneat/genome.cpp:1832-1837 | any point with smaller numbers before and a not-smaller one after is GenePosition |
| Genomes.AddGeneKeepsOrder | branches/rtneat/source/rtneat/genome.cpp:1827-1842 | adding to a list sorted by innovation keeps it sorted, one longer, the same genes plus the new one |
| Genomes.NodePosition | branches/rtneat/source/rtneat/genome.cpp:1844-1856 | the insertion point: every earlier node has a smaller id, the node there (if any) does not |
| Genomes.NodeInsert | branches/rtneat/source/rtneat/genome.cpp:1844-1856 | the list with the node inserted at NodePosition and nothing else changed |
| Genomes.NodePositionUnique | branches/rtneat/source/rtneat/genome.cpp:1850-1853 | any point with smaller ids before and a not-smaller one after is NodePosition |
| Genomes.NodeInsertKeepsOrder | branches/rtneat/source/rtneat/genome.cpp:1844-1856 | inserting into a list sorted by id keeps it sorted, one longer, the same nodes plus the new one |
| Genomes.Enabled | branches/rtneat/source/rtneat/genome.cpp:2951-2963 | the enabled count never exceeds the number of genes |
| Genomes.CountEnabled | branches/rtneat/source/rtneat/genome.cpp:2951-2963 | the loop counts exactly the enabled genes |
| Genomes.FirstDisabled | branches/rtneat/source/rtneat/genome.cpp:1173-1177 | every gene before it is enabled and the gene there (if any) is disabled |
| Genomes.ReenableFirst | branches/rtneat/source/rtneat/genome.cpp:1169-1184 | the first disabled gene is enabled and nothing else changes; no change when every gene is enabled |
| Genomes.FirstDisabledUnique | branches/rtneat/source/rtneat/genome.cpp:1176-1177 | a position with only enabled genes before and a disabled one there is FirstDisabled |
| Genomes.EnabledAfterEnable | branches/rtneat/source/rtneat/genome.cpp:1181-1183 | enabling a disabled gene raises the enabled count by exactly one |
| Genomes.ReenableEffect | branches/rtneat/source/rtneat/genome.cpp:1169-1184 | reenabling raises extrons by one when a gene was disabled and leaves a genome without one unchanged |
| Genomes.Contains | branches/rtneat/source/rtneat/genome.cpp:713-740 | the search finds a node exactly when it is in the list |
| Genomes.CheckLists | branches/rtneat/source/rtneat/genome.cpp:700-796 | verify passes exactly when every gene's end nodes are in the genome, the first id is not negative and ids never fall |
| Genomes.SortedPassesIdCheck | branches/rtneat/source/rtneat/genome.cpp:742-763 | a node list sorted by id passes verify's id check |
| Genomes.CompareCountsEveryGene | branches/rtneat/source/rtneat/genome.cpp:2821-2915 | disjoint + excess + twice matching is the total number of genes of both genomes |
| Genomes.CompareSymmetric | branches/rtneat/source/rtneat/genome.cpp:2821-2915 | comparing b with a tallies the same as comparing a with b |
| Genomes.CompareSelf | branches/rtneat/source/rtneat/genome.cpp:2821-2915 | a genome compared with itself has every gene matching and no mutation difference |
| Genomes.Tallied | branches/rtneat/source/rtneat/genome.cpp:2821-2915 | the two-cursor loop tallies what Compare defines |
| Genomes.CompareStep | branches/rtneat/source/rtneat/genome.cpp:2858-2905 | one step of the walk: an exhausted side makes excess, equal numbers a match, the smaller number a disjoint gene |
| Genomes.SelfCompatibility | branches/rtneat/source/rtneat/genome.cpp:2907-2914 | a genome with at least one gene has compatibility 0 with itself |
| Genomes.BuildNodes | branches/rtneat/source/rtneat/genome.cpp:360-395 | inputs 1..num_in (the last the bias), then the hidden, then the outputs, numbered on |
| Genomes.ConnectLength | branches/rtneat/source/rtneat/genome.cpp:398-422 | connecting every source to every target makes (number of targets) * (number of sources) genes |
| Genomes.ConnectBetween | branches/rtneat/source/rtneat/genome.cpp:405-417 | every gene runs from a source to a target |
| Genomes.ConnectNumbered | branches/rtneat/source/rtneat/genome.cpp:402-417 | the genes are numbered on from the counter, enabled, with the given recurrence |
| Genomes.ConnectCovers | branches/rtneat/source/rtneat/genome.cpp:405-417 | every source is linked to every target |
| Genomes.CompleteConcat | branches/rtneat/source/rtneat/genome.cpp:405-417 | a complete connection stays complete when more genes are pushed |
| Genomes.AppendRow | branches/rtneat/source/rtneat/genome.cpp:408-416 | the inner loop pushes one row and moves the counter on by its length |
| Genomes.ConnectLoop | branches/rtneat/source/rtneat/genome.cpp:402-417 | the nested loops push Connect and move the counter on by its length |
| Genomes.SplitRowLayered | branches/rtneat/source/rtneat/genome.cpp:424-454 | a type-1 row has two genes per input, each input to hidden or hidden to output |
| Genomes.SplitRowRelays | branches/rtneat/source/rtneat/genome.cpp:424-454 | in a type-1 row every hidden node is fed by an input and feeds the output |
| Genomes.SplitLayered | branches/rtneat/source/rtneat/genome.cpp:424-454 | two genes per hidden node, each input to hidden or hidden to output |
| Genomes.SplitRelays | branches/rtneat/source/rtneat/genome.cpp:424-454 | every hidden node is fed by an input and feeds an output |
| Genomes.AsWrittenRowEndsIn | branches/rtneat/source/rtneat/genome.cpp:432-450 | as written, every gene of a row ends in that row's output |
| Genomes.AsWrittenEndsInOutputs | branches/rtneat/source/rtneat/genome.cpp:430-451 | as written, every type-1 gene ends in an output |
| Genomes.AsWrittenStarvesHidden | branches/rtneat/source/rtneat/genome.cpp:436-437 | as written, no hidden node is fed by any input, whereas the corrected genes feed every hidden node |
| Genomes.AppendSplitRow | branches/rtneat/source/rtneat/genome.cpp:432-450 | the inner loop pushes one row as the source writes it, input to output and hidden to output, and moves the counter on by two per input |
| Genomes.SplitLoop | branches/rtneat/source/rtneat/genome.cpp:424-454 | the loops push the type-1 genes as the source writes them |
| Genomes.BuildGenes | branches/rtneat/source/rtneat/genome.cpp:398-524 | the genes of each type as the source links them, none for an unknown type |
| Genomes.StartNodesAscend | branches/rtneat/source/rtneat/genome.cpp:360-395 | the starting nodes have ids 1, 2, ... in order, the last input is the bias, and they pass verify's node checks |
| Genomes.Type0Shape | branches/rtneat/source/rtneat/genome.cpp:398-422 | num_in * num_out genes numbered 1.. in order, every one input to output, every input linked to every output, and verify passes |
| Genomes.Type1Shape | branches/rtneat/source/rtneat/genome.cpp:424-454 | as built, two genes per hidden node, each from an input or a hidden node into an output, so no hidden node is fed by an input; verify still passes |
| Genomes.FullCounted | branches/rtneat/source/rtneat/genome.cpp:456-524 | the fully connected genes are numbered 1.. in order and enabled |
| Genomes.FullCovers | branches/rtneat/source/rtneat/genome.cpp:460-522 | inputs to all hidden, hidden to all outputs, bias to all outputs, hidden to all hidden |
| Genomes.FullWithin | branches/rtneat/source/rtneat/genome.cpp:456-524 | every gene's end nodes are among the genome's nodes |
| Genomes.Type2Shape | branches/rtneat/source/rtneat/genome.cpp:456-524 | the type-2 genome is numbered 1.. in order, fully connected as built, and passes verify |
| Genomes.NextNodeId | branches/rtneat/source/rtneat/genome.cpp:835-840 | in a genome sorted by id, the answer exceeds every node id |
| Genomes.Genome.Initial | branches/rtneat/source/rtneat/genome.cpp:328-526 | id 0, one trait, the starting nodes and the genes of the type |
| Genomes.Genome.Verify | branches/rtneat/source/rtneat/genome.cpp:700-796 | passes exactly when Verified holds |
| Genomes.Genome.Extrons | branches/rtneat/source/rtneat/genome.cpp:2951-2963 | the number of enabled genes |
| Genomes.Genome.MutateGeneReenable | branches/rtneat/source/rtneat/genome.cpp:1169-1184 | the first disabled gene enabled, nodes and everything else unchanged |
| Genomes.Genome.Compatibility | branches/rtneat/source/rtneat/genome.cpp:2821-2915 | the coefficients applied to the tally of the two gene lists |
| Genomes.StartingGenomeChecks | branches/rtneat/source/rtneat/genome.cpp:328-526 | fresh type-0, type-1 and type-2 genomes pass verify and the next node id is num_in + num_out + 1 |
| Genomes.InsertSortedGene | branches/rtneat/source/rtneat/genome.cpp:1827-1842 | inserting before the first gene with a not-smaller innovation number keeps the list sorted |
| Genomes.InsertSortedNode | branches/rtneat/source/rtneat/genome.cpp:1844-1856 | inserting before the first node with a not-smaller id keeps the list sorted |
| Genomes.SplitRowLength | branches/rtneat/source/rtneat/genome.cpp:432-450 | a corrected type-1 row has two genes per input |
| Genomes.SplitLength | branches/rtneat/source/rtneat/genome.cpp:424-454 | the corrected type-1 genes are two per hidden node |
| Genomes.AsWrittenRowShape | branches/rtneat/source/rtneat/genome.cpp:432-450 | as written, a row has two genes per input, each from an input or a hidden node into the row's output |
| Genomes.AsWrittenLength | branches/rtneat/source/rtneat/genome.cpp:424-454 | as written, the type-1 genes are two per hidden node |
| Genomes.AsWrittenBetween | branches/rtneat/source/rtneat/genome.cpp:424-454 | as written, every type-1 gene runs from an input or a hidden node into an output |
| Genomes.Type1Verified | branches/rtneat/source/rtneat/genome.cpp:424-454 | the type-1 genes as written connect only nodes of the starting genome, so verify passes |
| Genomes.Type1Starves | branches/rtneat/source/rtneat/genome.cpp:436-437 | with at least one hidden node, no type-1 gene as written feeds a hidden node from an input |
| Genomes.CorrectedType1Shape | branches/rtneat/source/rtneat/genome.cpp:424-454 | the corrected type-1 genes are two per hidden node, layered input to hidden to output, feed every hidden node and leave each through an output, and pass verify |
| Genomes.ConnectCounted | branches/rtneat/source/rtneat/genome.cpp:402-417 | the connected genes are numbered on from the counter, one by one |
| Genomes.CompleteInFour | branches/rtneat/source/rtneat/genome.cpp:460-522 | a source-target pairing linked by any of the four blocks of the type-2 loops is linked by the whole gene list |
| Genomes.BuildStart | branches/rtneat/source/rtneat/genome.cpp:358-524 | the constructor's loops build exactly the starting nodes and the starting genes of the type |
| Genomes.FreshGenomeVerifies | branches/rtneat/source/rtneat/genome.cpp:328-526 | a freshly built type-1 genome, and a type-2 genome with at least one input, passes verify |
| NNodes.NNode.constructor | branches/merge/source/rtneat/nnode.cpp:40-67 | kind, id and place as given, inactive with zero history and gradient, not overridden, no links |
| NNodes.NNode.SetType | branches/merge/source/rtneat/nnode.cpp:230-234 | the kind is stored and answered, nothing else changes |
| NNodes.NNode.SensorLoad | branches/merge/source/rtneat/nnode.cpp:237-252 | succeeds exactly for a sensor, which moves activation to the previous step and the previous to the one before, counts one more activation and takes the value; a neuron is left as it was |
| NNodes.NNode.ErrorLoad | branches/merge/source/rtneat/nnode.cpp:255-260 | the gradient is the error times activation * (1 - activation), one more gradient counted, the activation untouched |
| NNodes.NNode.AddIncoming | branches/merge/source/rtneat/nnode.cpp:270-283 | the feeding node is appended to this node's incoming links and this node to its outgoing links |
| NNodes.NNode.OverrideOutput | branches/merge/source/rtneat/nnode.cpp:383-387 | the override is on with the given value, the activation untouched |
| NNodes.NNode.ActivateOverride | branches/merge/source/rtneat/nnode.cpp:396-400 | the activation becomes the override value and the override is off; the activation count is unchanged |
| NNodes.NNode.Flushback | branches/merge/source/rtneat/nnode.cpp:314-352 | terminates; every node of the network ends as it was or fully reset, links untouched, no node newly active; the node is inactive, reset when a sensor or when it was active, and every node feeding a non-sensor is inactive |
| NNodes.NNode.Reset | branches/merge/source/rtneat/nnode.cpp:325-333 | activation, history, gradient and both counts are zero |
| NNodes.SensorHistory | branches/merge/source/rtneat/nnode.cpp:237-252 | a fresh sensor answers 0; after one load the value and no previous value; after two loads the second value and the first as the previous; a neuron refuses a load and answers 0 |
| NNodes.OverrideCycle | branches/merge/source/rtneat/nnode.cpp:286-292 | forcing then activating sets the activation and clears the override; a never-activated node still answers 0 from get_active_out, a loaded sensor answers the forced value |
| NNodes.FlushChain | branches/merge/source/rtneat/nnode.cpp:314-352 | flushing an active output fed by an active sensor leaves both inactive and the sensor answering 0 |
| Speciation.EstimateWithin | branches/collision/source/rtneat/species.cpp:69-99 | when some organism has lived long enough, the estimate lies between any lower and upper bound of their fitnesses |
| Speciation.TotalWithin | branches/collision/source/rtneat/species.cpp:69-99 | the counted total lies between the count times a lower bound and the count times an upper bound |
| Speciation.NoneCounts | branches/collision/source/rtneat/species.cpp:93-97 | when no organism has lived long enough the estimate is 0 |
| Speciation.EstimateOne | branches/collision/source/rtneat/species.cpp:69-99 | a lone organism's estimate is its fitness once it counts, 0 before |
| Speciation.EstimateOf | branches/collision/source/rtneat/species.cpp:69-99 | the average fitness of the organisms with time_alive at least the minimum, 0 when there are none |
| Speciation.Species.EstimateAverage | branches/collision/source/rtneat/species.cpp:69-99 | stores that estimate as average_est and answers it, the members unchanged |
| Speciation.FirstBestUnique | branches/collision/source/rtneat/species.cpp:520-537 | at most one position holds the first greatest fitness |
| Speciation.GetChamp | branches/collision/source/rtneat/species.cpp:520-537 | none exactly when no fitness exceeds -1, otherwise the first organism of greatest fitness |
| Speciation.MaxFitnessOf | branches/collision/source/rtneat/species.cpp:705-718 | at least 0, at least every fitness, and either 0 or some organism's fitness |
| Speciation.Species.ComputeMaxFitness | branches/collision/source/rtneat/species.cpp:705-718 | stores that maximum as max_fitness and answers it |
| Speciation.IndexOf | branches/collision/source/rtneat/species.cpp:539-551 | the first position holding the organism |
| Speciation.EraseOne | branches/collision/source/rtneat/species.cpp:539-551 | erasing removes exactly one occurrence: one fewer member and every other member as often as before |
| Speciation.Find | branches/collision/source/rtneat/species.cpp:543-545 | the search stops at the first occurrence, or at the end when there is none |
| Speciation.IndexOfFirst | branches/collision/source/rtneat/species.cpp:543-545 | a position holding x with no earlier x is the first occurrence |
| Speciation.Species.RemoveOrg | branches/collision/source/rtneat/species.cpp:539-551 | a member is required; its first occurrence is erased, nothing else changes |
| Speciation.Species.AddOrganism | branches/collision/source/rtneat/species.cpp:512-518 | the organism is appended, so the size grows by one |
| Speciation.Species.First | branches/collision/source/rtneat/species.cpp:553-557 | a member is required; the answer is a member |
| Speciation.Species.constructor | branches/collision/source/rtneat/species.cpp:42-56 | age 1, no members, novelty as given, every statistic zero, not obliterated |
| Speciation.SameElements | branches/collision/source/rtneat/species.cpp:63-67 | a permutation keeps the size and the members |
| Speciation.InsertByFitness | branches/collision/source/rtneat/species.cpp:63-67 | inserting into a fitness-ordered list keeps it ordered and adds exactly the organism |
| Speciation.RankByFitness | branches/collision/source/rtneat/species.cpp:63-67 | the members ordered with the higher fitness first, a permutation of them |
| Speciation.Species.Rank | branches/collision/source/rtneat/species.cpp:63-67 | the species' members reordered that way |
| Speciation.AdjustedFacts | branches/collision/source/rtneat/species.cpp:611-639 | shared fitness is never negative, and for a species neither stagnant nor young it is the fitness over the size |
| Speciation.CutoffBounds | branches/collision/source/rtneat/species.cpp:654-669 | the reproduction cutoff never exceeds the size and keeps at least one parent when survival_thresh is not negative |
| Speciation.ShareFitness | branches/collision/source/rtneat/species.cpp:605-641 | each member remembers its fitness and takes the adjusted one; marks and time alive unchanged |
| Speciation.MarkForDeath | branches/collision/source/rtneat/species.cpp:659-669 | the first member is the champion, every member from the cutoff on is marked for elimination; fitness, time alive, smiting and species untouched, and no other member's champion or elimination flag changes |
| Speciation.ShareRankMark | branches/collision/source/rtneat/species.cpp:605-669 | every member's fitness shared and not negative, the members ranked, the best the champion and those past the cutoff marked; time alive, smiting and species kept, and the flags of unmarked members kept |
| Speciation.Species.AdjustFitness | branches/collision/source/rtneat/species.cpp:589-671 | as above, with age_debt 0 counted as 1, and a best original fitness above max_fitness_ever recorded with the age of improvement; each member's time alive, smiting and species are kept, and no member other than the champion or those past the cutoff has its champion or elimination flag changed |
| Speciation.SpeciesOfOne | branches/collision/source/rtneat/species.cpp:42-56 | a new species with one organism: that organism is first, is the champion when its fitness exceeds -1, and is the estimate once it counts |
| Speciation.EligibleCount | branches/collision/source/rtneat/species.cpp:76-91 | the number of organisms that have lived long enough never exceeds the number of members |
| Speciation.EraseSingle | branches/collision/source/rtneat/species.cpp:539-551 | removing the only member of a species leaves it empty |
| Speciation.InsertKeepsOrder | branches/collision/source/rtneat/species.cpp:63-67 | placing an organism after the members at least as fit and before the rest keeps the members ordered by fitness |
| Populations.MulMod | trunk/external/source/rtneat/population.cpp:1083-1093 | a multiple of the minimum leaves no remainder |
| Populations.NextMultipleFacts | trunk/external/source/rtneat/population.cpp:1083-1093 | a smited organism's raised time alive is the least multiple of the minimum at or above it, unchanged when already a multiple |
| Populations.NextMultipleIdempotent | trunk/external/source/rtneat/population.cpp:1083-1093 | raising a raised time changes nothing |
| Populations.EntryOf | trunk/external/source/rtneat/population.cpp:1078-1094 | a smited organism scores -9999 with its time raised; any other scores its fitness over its species' size with its time unchanged |
| Populations.IsWorstUnique | trunk/external/source/rtneat/population.cpp:1096-1104 | at most one position is the one chosen |
| Populations.WorstOrNone | trunk/external/source/rtneat/population.cpp:1096-1104 | a choice and an empty answer exclude each other |
| Populations.SmitedFirst | trunk/external/source/rtneat/population.cpp:1091-1104 | when an old enough smited organism exists, the one chosen scores at most -9999 |
| Populations.Entries | trunk/external/source/rtneat/population.cpp:1076-1094 | one entry per organism, each as EntryOf describes |
| Populations.ScanWorst | trunk/external/source/rtneat/population.cpp:1076-1104 | every smited organism's time raised, nothing else touched; none exactly when no organism old enough scores below 999999, otherwise the first of least score among those old enough |
| Populations.Population.Verify | trunk/external/source/rtneat/population.cpp:261-273 | true exactly when every organism's genome passes verify |
| Populations.Population.RemoveSpecies | trunk/external/source/rtneat/population.cpp:1045-1063 | false exactly when the species is not listed; otherwise its first listing is erased |
| Populations.Population.DropIfEmpty | trunk/external/source/rtneat/population.cpp:1114-1122 | an emptied species is dropped from the species, otherwise its average is re-estimated |
| Populations.Population.RemoveWorst | trunk/external/source/rtneat/population.cpp:1065-1126 | the organism ScanWorst chooses is erased from the organisms and from its species, which is dropped when empty and re-estimated otherwise; none removed when nothing is chosen; smited organisms' times raised |
| Populations.FindSpecies | trunk/external/source/rtneat/population.cpp:1408-1436 | the first species whose first member is compatible with the organism (distance below the threshold), or none |
| Populations.Population.AddOrganism | trunk/external/source/rtneat/population.cpp:1390-1450 | the organism joins the first compatible species, or a new novel species numbered one past the last and appended; it points to its species, is appended to the organisms, no other species changes, and an organism in no species before is in exactly one after |
| Populations.Population.SwitchSpecies | trunk/external/source/rtneat/population.cpp:1360-1388 | the organism leaves its original species (if any) and joins the new one, pointing to it; an emptied original species is dropped; the averages of the species involved are re-estimated |
| Populations.FoundSpecies | trunk/external/source/rtneat/population.cpp:1390-1405 | the first organism of an empty population founds species number last_species + 1 alone |
| AdviceVariables.ToString | trunk/source/advice/advice_rep.cpp:456-475 | the name is the type's prefix (s, ea, a, g) followed by the index's digits |
| AdviceVariables.NameRoundTrip | trunk/source/advice/advice_rep.cpp:456-475 | every printed name parses back to the type and the index printed |
| AdviceVariables.TranslateTable | trunk/source/advice/advice_rep.cpp:354-413 | the exact translation accepts exactly the indices below the type's capacity (sensors: the sensor count; evolved actions: the action count for an evolved agent, none for a scripted one; actions: the action count; general: up to UINT_MAX), packs them at the type's offset, and otherwise raises the source's message for that case with the variable's name |
| AdviceVariables.TranslateInverse | trunk/source/advice/advice_rep.cpp:354-448 | getType and getIndex recover the type and the index of every exactly translated variable, for evolved and scripted agents |
| AdviceVariables.TranslateOnto | trunk/source/advice/advice_rep.cpp:416-448 | every number below UINT_MAX is the exact translation of the variable getType and getIndex name |
| AdviceVariables.TranslateInjective | trunk/source/advice/advice_rep.cpp:354-405 | distinct variables translate exactly to distinct numbers |
| AdviceVariables.VarNameOfTranslate | trunk/source/advice/advice_rep.cpp:451-453 | toString of an exactly translated number is the variable's own name, and that name parses back to the variable |
| AdviceVariables.AsWrittenAgrees | trunk/source/advice/advice_rep.cpp:392-403 | without overflow, the source's general-purpose check gives the same number as the exact one |
| AdviceVariables.AsWrittenMisplaces | trunk/source/advice/advice_rep.cpp:392-403 | the source's 32-bit check sends g4294967294 (2 sensors, no actions, evolved) to 0, read back as s0, and g4294967293 (1 action, evolved) to a number read back as g4294967292 |
| AdviceVariables.Resized | trunk/source/advice/advice_rep.cpp:491-500 | the vector is large enough to hold the variable, its old entries kept and the new ones 0 |
| AdviceVariables.Written | trunk/source/advice/advice_rep.cpp:497-500 | after setValue the variable holds the value, every other variable keeps its value |
| AdviceVariables.PaddedSame | trunk/source/advice/advice_rep.cpp:491-494 | growing the vector with zeros changes no variable's value |
| AdviceVariables.GetValue | trunk/source/advice/advice_rep.cpp:491-494 | the value read is the variable's (0 beyond the vector), and the vector only grows by zeros |
| AdviceVariables.SetThenGet | trunk/source/advice/advice_rep.cpp:491-500 | getValue after setValue answers the value set |
| AdviceVariables.ToNetwork | trunk/source/advice/advice_rep.cpp:523-530 | for an evolved agent [-1, 1] is mapped into [0.2, 0.8], the ends onto the ends; a scripted agent's values are unchanged |
| AdviceVariables.ToAdvice | trunk/source/advice/advice_rep.cpp:552-559 | for an evolved agent [0.2, 0.8] is mapped into [-1, 1]; a scripted agent's values are unchanged |
| AdviceVariables.AdviceNetworkInverse | trunk/source/advice/advice_rep.cpp:523-559 | toAdvice and toNetwork are inverse in both orders |
| AdviceVariables.RescaleBack | trunk/source/advice/advice_rep.cpp:533-578 | rescaling a sensor value from advice to network bounds and back gives it back |
| AdviceVariables.AdviceNetworkInverseAt | trunk/source/advice/advice_rep.cpp:533-578 | toAdvice(., var) undoes toNetwork(., var) for every variable |
| AdviceVariables.CheckRange | trunk/source/advice/advice_rep.cpp:581-591 | the value itself exactly when it lies in [-1, 1], an error otherwise |
| AdviceVariables.Translate | trunk/source/advice/advice_rep.cpp:354-413 | translate as the source writes it agrees with the exact translation for sensors, evolved actions and actions |
| AdviceVariables.TranslateAgrees | trunk/source/advice/advice_rep.cpp:392-403 | when the packed number of a general variable stays below UINT_MAX, translate as written gives the exact translation |
| AdviceVariables.AsWrittenOnto | trunk/source/advice/advice_rep.cpp:416-448 | translate as written also reaches every number below UINT_MAX from the variable getType and getIndex name |
| AdviceRules.GatedNet | source/advice/advice_rep.h:50-51 | an expression term's node computes sigmoid(4x - 2) of its input when the condition is on and sigmoid(4x - 10) when off |
| AdviceRules.ConstantEterm | source/advice/advice_rep.h:50 | a constant term of the value, with those weights |
| AdviceRules.ScaledEterm | source/advice/advice_rep.h:51 | a variable term with the coefficient, with those weights |
| AdviceRules.Negate | source/advice/advice_rep.h:58-63 | the value changes sign, the kind and the other weights are kept, the weights stay the built ones |
| AdviceRules.NegateFacts | source/advice/advice_rep.h:58-68 | a negated term evaluates to the opposite value, its scale changes sign unless it is a constant, and negating twice gives the term back |
| AdviceRules.ScaledValue | source/advice/advice_rep.h:65-68 | a variable term's value is its scale times the variable's value |
| AdviceRules.AppendSum | source/advice/advice_rep.h:99-101 | appending a term adds its value to the expression's value |
| AdviceRules.SumConcat | trunk/source/advice/advice_rep.cpp:252-258 | the value of joined term lists is the sum of their values |
| AdviceRules.SumNegated | source/advice/advice_rep.h:58-63 | negating every term negates the expression's value |
| AdviceRules.SumSame | trunk/source/advice/advice_rep.cpp:252-258 | the expression's value depends only on the variables' values |
| AdviceRules.EvaluateEterm | trunk/source/advice/advice_rep.cpp:240-250 | the constant, or the coefficient times the variable's value; the vector only grows by zeros |
| AdviceRules.EvaluateExpr | trunk/source/advice/advice_rep.cpp:252-258 | the sum of the terms' values; the vector only grows by zeros |
| AdviceRules.CompareDuality | source/advice/advice_rep.h:240-281 | <= and > are complements, < and >= are complements, and swapping the sides exchanges > with < and >= with <= |
| AdviceRules.MakeBoolean | source/advice/advice_rep.h:151-186 | the constant with a bias weight of ±4.6, positive exactly for true |
| AdviceRules.MakeBinary | source/advice/advice_rep.h:240-281 | the comparison of the variable with the value or the variable, with the constructor's weights |
| AdviceRules.BinaryNetSound | source/advice/advice_rep.h:200-281 | with the built weights, a positive net input means the comparison holds and a failed comparison never gives a positive net input, for all four comparisons and both kinds of right-hand side |
| AdviceRules.EvaluateTerm | source/advice/advice_rep.h:175 | a constant's truth, or the comparison of the variable's value with the value or the other variable's value |
| AdviceRules.ConjunctionThreshold | source/advice/advice_rep.h:284-309 | with bias ω(-2n+1)/2 the conjunction node's net input is ω/2 when all n antecedents are on and at most -ω/2 otherwise |
| AdviceRules.NoConds | source/advice/advice_rep.h:285 | no terms, bias ω/2, which is the formula at n = 0 |
| AdviceRules.AppendCond | source/advice/advice_rep.h:292-295 | the term is appended and the bias is ω(-2n+1)/2 for the new count |
| AdviceRules.AppendsBuildCondsOf | source/advice/advice_rep.h:285-295 | building by appends gives what the list constructor gives |
| AdviceRules.AppendCondHolds | source/advice/advice_rep.h:292-295 | the conditions with a term appended hold exactly when the old ones and the term do |
| AdviceRules.EvaluateConds | trunk/source/advice/advice_rep.cpp:216-223 | the conjunction of the terms, true when there are none, stopping at the first false term |
| AdviceRules.MakeSetVar | source/advice/advice_rep.h:115 | the assignment's node computes 4x - 2 from its input |
| AdviceRules.MakeIf | source/advice/advice_rep.h:319-321 | the else node's net input is -ω/2 when the then node is on and ω/2 when off |
| AdviceRules.AppendSetVarExec | source/advice/advice_rep.h:354-356 | an appended assignment runs after the others |
| AdviceRules.ExecSetVarSame | trunk/source/advice/advice_rep.cpp:260-262 | an assignment run on vectors with the same values gives vectors with the same values |
| AdviceRules.ExecSetVarsSame | trunk/source/advice/advice_rep.cpp:234-238 | likewise for a list of assignments |
| AdviceRules.ExecRuleSame | trunk/source/advice/advice_rep.cpp:225-238 | likewise for a rule |
| AdviceRules.ExecuteSetVar | trunk/source/advice/advice_rep.cpp:260-262 | the variable takes the expression's value, every other variable keeps its value |
| AdviceRules.ExecuteSetRules | trunk/source/advice/advice_rep.cpp:234-238 | the assignments run in order |
| AdviceRules.ExecuteRule | trunk/source/advice/advice_rep.cpp:225-238 | the then rule runs when the conditions hold, else the else rule when there is one, else nothing changes |
| AdviceRules.NoRules | source/advice/advice_rep.h:367 | no rules, bias ω/2, the formula at n = 0 |
| AdviceRules.AppendRule | source/advice/advice_rep.h:375-378 | the rule is appended and the bias is ω(-2n+1)/2 for the new count |
| AdviceRules.AppendsBuildRulesOf | source/advice/advice_rep.h:367-378 | building by appends gives what the list constructor gives |
| AdviceRules.ExecuteRules | trunk/source/advice/advice_rep.cpp:264-268 | the rules run in order |
| AdviceRules.SetActionsToEvolvedActions | trunk/source/advice/advice_rep.cpp:504-520 | for an evolved agent (or no actions) one assignment per action, a_i := 1·ea_i in order; for a scripted agent with actions, translate's error for ea0 |
| AdviceRules.CopyStep | trunk/source/advice/advice_rep.cpp:504-520 | one such assignment gives action i evolved action i's value |
| AdviceRules.CopiedPrefix | trunk/source/advice/advice_rep.cpp:504-520 | after the first k assignments actions 0..k-1 hold their evolved actions' values and nothing else changed |
| AdviceRules.ActionsCopied | trunk/source/advice/advice_rep.cpp:504-520 | running the rules sets every action to its evolved action and changes no variable that is not an action |
| Strips.StrongMatchIsEquality | branches/towers3/mods/BlocksTower/strips.py:20-32 | a strong match is a weak match with equal truth, which is plain equality of the conditions |
| Strips.CheckWeakMatch | branches/towers3/mods/BlocksTower/strips.py:20-32 | true iff same predicate, same length and pairwise equal literals, i.e. the weak match |
| Strips.WeakIndex | branches/towers3/mods/BlocksTower/strips.py:14-18 | the first position whose item weakly matches, every earlier one not matching; the length of items when none does |
| Strips.ContainsWeak | branches/towers3/mods/BlocksTower/strips.py:8-12 | true iff some item weakly matches |
| Strips.FindWeak | branches/towers3/mods/BlocksTower/strips.py:14-18 | nothing iff no item weakly matches, else the first weak match |
| Strips.FindStrong | branches/towers3/mods/BlocksTower/strips.py:34-37 | nothing iff the condition is not listed, else the condition itself |
| Strips.Asserted | branches/towers3/mods/BlocksTower/strips.py:57-60 | the tuple holds afterwards and every other fact is unchanged |
| Strips.Retracted | branches/towers3/mods/BlocksTower/strips.py:61-63 | an error (KeyError) iff the predicate is known but the tuple is not; otherwise the tuple no longer holds and every other fact is unchanged |
| Strips.AssertThenRetract | branches/towers3/mods/BlocksTower/strips.py:57-63 | set_true then set_false succeeds and restores every other fact, the tuple being false |
| Strips.World.constructor | branches/towers3/mods/BlocksTower/strips.py:46-50 | empty state, goals, literals and actions |
| Strips.World.SetTrue | branches/towers3/mods/BlocksTower/strips.py:57-60 | is_true holds afterwards; the state is the asserted facts; nothing else changes |
| Strips.World.SetFalse | branches/towers3/mods/BlocksTower/strips.py:61-63 | the retracted facts, or the KeyError and no change |
| Strips.World.AddGoal | branches/towers3/mods/BlocksTower/strips.py:64-66 | the goal condition joins the goal set |
| Strips.World.AddLiteral | branches/towers3/mods/BlocksTower/strips.py:67-68 | the literal joins the known literals |
| Strips.World.AddAction | branches/towers3/mods/BlocksTower/strips.py:69-71 | registered only under a name not yet in use |
| Strips.World.GoalReached | branches/towers3/mods/BlocksTower/strips.py:72-76 | true iff every goal's truth agrees with the state |
| Strips.SatisfiedClosedWorld | branches/towers3/mods/BlocksTower/strips.py:522-530 | over a state of positive facts, a goal is satisfied iff its positive form is listed exactly when the goal is positive |
| Strips.UpdateState | branches/towers3/mods/BlocksTower/strips.py:551-561 | a positive post condition is satisfied afterwards, appended only if weakly absent; a negative one removes exactly its first weak match, or changes nothing |
| Strips.UpdateStateSatisfies | branches/towers3/mods/BlocksTower/strips.py:551-561 | on a state without weak duplicates, the update keeps that shape and satisfies the post condition in both truths, and keeps a state of positive facts positive |
| Strips.Grounding | branches/towers3/mods/BlocksTower/strips.py:84-91 | same predicate and truth; a mapped parameter becomes its mapped literal and an unmapped one stays as it is |
| Strips.Ground | branches/towers3/mods/BlocksTower/strips.py:84-91 | the loop builds that grounding |
| Strips.ArgsMapLookup | branches/towers3/mods/BlocksTower/strips.py:126 | with distinct parameters, zip's map binds each parameter to the literal at its position |
| Strips.GroundBindsParams | branches/towers3/mods/BlocksTower/strips.py:84-91 | grounding with that map turns the j-th parameter into the j-th literal |
| Strips.GroundedActionBinds | branches/towers3/mods/BlocksTower/strips.py:126-129 | likewise for every pre and post condition of a grounded action |
| Strips.CompletePostOf | branches/towers3/mods/BlocksTower/strips.py:152-155 | starts with the post conditions, weakly contains every precondition, and adds only preconditions the post conditions do not weakly contain |
| Strips.WeakContainsAppend | branches/towers3/mods/BlocksTower/strips.py:152-155 | appending keeps every weak match and adds the appended condition |
| Strips.CompletePost | branches/towers3/mods/BlocksTower/strips.py:152-155 | the loop builds the complete post conditions |
| Strips.NewGroundedAction | branches/towers3/mods/BlocksTower/strips.py:126-129 | the grounded action for the assignment |
| Strips.GroundingsSound | branches/towers3/mods/BlocksTower/strips.py:124-133 | every grounding extends the current literals to an injective assignment drawn from the literals |
| Strips.GroundingsFromSound | branches/towers3/mods/BlocksTower/strips.py:131-133 | likewise for the extensions from one position of the literal list on |
| Strips.GroundingsComplete | branches/towers3/mods/BlocksTower/strips.py:124-133 | every injective assignment extending the current literals is enumerated |
| Strips.GroundingsFromIncludes | branches/towers3/mods/BlocksTower/strips.py:131-133 | the extensions by a later unused literal are among those from an earlier position |
| Strips.FallingFactorial | branches/towers3/mods/BlocksTower/strips.py:124-133 | n(n-1)...(n-k+1) · (n-k)! = n! |
| Strips.UnusedAdd | branches/towers3/mods/BlocksTower/strips.py:132 | using one more literal of the list leaves one fewer unused |
| Strips.UnusedEmpty | branches/towers3/mods/BlocksTower/strips.py:132 | with nothing used, every literal is unused |
| Strips.GroundingsCount | branches/towers3/mods/BlocksTower/strips.py:124-133 | the number of groundings is the falling factorial of the unused literals over the parameters still to bind |
| Strips.GroundingsFromCount | branches/towers3/mods/BlocksTower/strips.py:131-133 | the extensions from one position number the unused literals from there times the count one level down |
| Strips.GroundingsAreInjectiveAssignments | branches/towers3/mods/BlocksTower/strips.py:120-133 | over distinct literals the groundings are exactly the injective assignments of literals to parameters, n!/(n-k)! of them |
| Strips.GroundingsFromStep | branches/towers3/mods/BlocksTower/strips.py:131-133 | one pass of the literal loop appends that literal's extensions |
| Strips.GroundingsHelper | branches/towers3/mods/BlocksTower/strips.py:124-133 | appends every grounding extending the current literals, in enumeration order |
| Strips.GenerateGroundings | branches/towers3/mods/BlocksTower/strips.py:120-123 | the groundings over the literals |
| Strips.FlattenMember | branches/towers3/mods/BlocksTower/strips.py:566-567 | every grounding of every action is enumerated |
| Strips.AchievesIsMembership | branches/towers3/mods/BlocksTower/strips.py:568-569 | a grounding achieves a goal iff the goal is one of its post conditions |
| Strips.AchieversMembers | branches/towers3/mods/BlocksTower/strips.py:564-572 | the achievers are exactly the groundings with a post condition strongly matching the goal, none twice |
| Strips.PostAchieves | branches/towers3/mods/BlocksTower/strips.py:568-571 | stops at the first strongly matching post condition |
| Strips.CollectAchievers | branches/towers3/mods/BlocksTower/strips.py:567-571 | appends one action's achieving groundings in order |
| Strips.AchieversConcat | branches/towers3/mods/BlocksTower/strips.py:566-571 | the achievers of a concatenation are the concatenated achievers |
| Strips.GetPossibleGrounds | branches/towers3/mods/BlocksTower/strips.py:564-572 | the achieving groundings in enumeration order |
| Strips.PreconditionReachable | branches/towers3/mods/BlocksTower/strips.py:539-549 | true iff reached in the world or some grounding's post condition strongly matches it |
| Strips.PreconditionsReachable | branches/towers3/mods/BlocksTower/strips.py:532-537 | true iff every precondition is reachable |
| Strips.ClashesAnywhere | branches/towers3/mods/BlocksTower/strips.py:507-512 | in a list without weak duplicates, the first weak match has the opposite truth iff some weak match does |
| Strips.ContainsContradiction | branches/towers3/mods/BlocksTower/strips.py:507-512 | true iff some post condition's first weak match has the opposite truth |
| Strips.Distance | branches/towers3/mods/BlocksTower/strips.py:515-520 | the count is at most the number of preconditions and is 0 iff all are satisfied |
| Strips.InitialStateDistance | branches/towers3/mods/BlocksTower/strips.py:515-520 | the loop counts the unsatisfied preconditions |
| Strips.InsertBy | branches/towers3/mods/BlocksTower/strips.py:392 | a sorted permutation of the list with the element added |
| Strips.SortBy | branches/towers3/mods/BlocksTower/strips.py:392 | sorted(..., key=...) gives a permutation sorted by the key |
| Strips.Clobbered | branches/towers3/mods/BlocksTower/strips.py:458 | a sub-multiset of the earlier goals, each different from the current goal and unsatisfied in the new state |
| Strips.RemoveFirst | branches/towers3/mods/BlocksTower/strips.py:470 | a present element loses exactly one occurrence |
| Strips.RemoveEach | branches/towers3/mods/BlocksTower/strips.py:470 | removing the clobbered goals shortens the list by at most their number |
| Strips.LinearSolverHelper | branches/towers3/mods/BlocksTower/strips.py:356-505 | [] with the state unchanged on no goals; None with the state unchanged past depth 15; a plan only of groundings whose preconditions are all reachable |
| Strips.AchieveGoal | branches/towers3/mods/BlocksTower/strips.py:384-503 | the goal loop's body: a new position within the re-ordered goal list, and actions that are groundings with reachable preconditions |
| Strips.UpdateAppends | branches/towers3/mods/BlocksTower/strips.py:551-561 | a positive condition with no weak match in the state is appended to it |
| Strips.UpdateRemoves | branches/towers3/mods/BlocksTower/strips.py:551-561 | a negative condition removes the state's first weak match and keeps the rest in order |
| Strips.CycleUndo | branches/towers3/mods/BlocksTower/strips.py:450-452 | applying the post conditions of an achiever that adds one fact and deletes two others removes both from the state |
| Strips.CycleState | branches/towers3/mods/BlocksTower/strips.py:440-452 | one pass of the goal loop: the recursive plan's action and then the goal's achiever leave the state holding the new precondition and the goal only |
| Strips.CycleChecks | branches/towers3/mods/BlocksTower/strips.py:384-431 | in that pass the goal and its achiever's precondition are unmet, and neither the achiever nor the precondition's achiever contradicts the goal list it is checked against |
| Strips.CycleRequeue | branches/towers3/mods/BlocksTower/strips.py:458-472 | in that pass the earlier goal is clobbered and moves behind the current one |
| Strips.GoalLoopCycles | branches/towers3/mods/BlocksTower/strips.py:384-503 | with goals [A, B], state [P, A] and the loop at position 1, two passes of the loop give back the same goals, state and position, so the loop as written can run forever |
| StripsPlanning.ValidSubgoalAction | trunk/mods/BlocksPlanning/strips.py:251-257 | false iff some precondition's first weak match in complete_post has the opposite truth |
| StripsPlanning.ValidSubgoalNoOpposite | trunk/mods/BlocksPlanning/strips.py:251-257 | with complete_post free of weak duplicates: valid iff no weak match of a precondition has the opposite truth |
| StripsPlanning.ValidOnesKeepOrder | trunk/mods/BlocksPlanning/strips.py:242-248 | the filtered list is a subsequence of the groundings, holding exactly the valid ones |
| StripsPlanning.FilterGroundedActions | trunk/mods/BlocksPlanning/strips.py:242-248 | the valid groundings in their order |
| StripsPlanning.StateDistance | trunk/mods/BlocksPlanning/strips.py:261-266 | at most the number of preconditions, 0 iff all are reached in the world |
| StripsPlanning.ComputeStateDistance | trunk/mods/BlocksPlanning/strips.py:261-266 | the loop counts the unreached preconditions |
| StripsPlanning.RemoveAt | trunk/mods/BlocksPlanning/strips.py:279 | the list without one position, the rest in order |
| StripsPlanning.MergePrecondition | trunk/mods/BlocksPlanning/strips.py:273-281 | an unmatched precondition is appended; a same-truth match keeps the list; an opposite match is dropped and the precondition not added |
| StripsPlanning.MergePreconditionKeepsDistinct | trunk/mods/BlocksPlanning/strips.py:273-281 | a list without weak duplicates keeps that shape |
| StripsPlanning.MergeAppendsNew | trunk/mods/BlocksPlanning/strips.py:270-282 | new, mutually unmatched preconditions are appended in order |
| StripsPlanning.MergeDropsConflict | trunk/mods/BlocksPlanning/strips.py:277-279 | a conflicting precondition cancels the requirement and is not added |
| StripsPlanning.MergePreconditions | trunk/mods/BlocksPlanning/strips.py:270-282 | the loop merges the preconditions one by one |
| StripsPlanning.DropAchievedStep | trunk/mods/BlocksPlanning/strips.py:288-291 | without weak duplicates, the post condition no longer appears among the goals and nothing new is added |
| StripsPlanning.DroppedAllAchieved | trunk/mods/BlocksPlanning/strips.py:286-291 | no post condition of the action is left as a goal |
| StripsPlanning.AddedAllCovers | trunk/mods/BlocksPlanning/strips.py:293-297 | the old goals stay in front; every precondition is then a goal or already reached; nothing but goals and preconditions appear |
| StripsPlanning.DropAchievedGoals | trunk/mods/BlocksPlanning/strips.py:288-291 | the first loop |
| StripsPlanning.AddUnmetGoals | trunk/mods/BlocksPlanning/strips.py:293-297 | the second loop |
| StripsPlanning.MergeGoals | trunk/mods/BlocksPlanning/strips.py:284-299 | the goals minus the achieved ones, plus the unmet unlisted preconditions |
| StripsPlanning.SolveHelper | trunk/mods/BlocksPlanning/strips.py:173-228 | the plan itself when there are no subgoals or a non-empty plan's preconditions are all reached; any plan returned extends the given one with groundings |
| StripsPlanning.TryCandidates | trunk/mods/BlocksPlanning/strips.py:208-227 | a returned plan extends the given one with groundings |
| StripsPlanning.RegressionRepeats | trunk/mods/BlocksPlanning/strips.py:173-228 | for the goal G unmet in the world and an action needing G to make G, that action is the only valid candidate and the recursive call receives the goal list [G] again, so every level repeats the one before until CPython's recursion limit raises RuntimeError |
| HanoiAgent.Move | mods/TowerofHanoi/agent.py:41-47 | a routine exactly for two distinct poles among a, b, c; None (the implicit None return) otherwise |
| HanoiAgent.MoveCarriesOnce | mods/TowerofHanoi/agent.py:25-30 | every routine picks up exactly once and puts down exactly once, the pick-up first |
| HanoiAgent.MoveInjective | mods/TowerofHanoi/agent.py:41-47 | different pole pairs get different routines |
| HanoiAgent.HanoiLength | mods/TowerofHanoi/agent.py:49-59 | dohanoi(n) makes 2^n - 1 moves |
| HanoiAgent.HanoiMovesAreCarries | mods/TowerofHanoi/agent.py:49-59 | every move of dohanoi is between two distinct poles, so each has a routine |
| HanoiAgent.CarryAllValid | mods/TowerofHanoi/agent.py:53-59 | the moves' routines concatenated hold one pick-up and one put-down per move |
| HanoiAgent.DoHanoiActions | mods/TowerofHanoi/agent.py:49-59 | dohanoi's action stream exists and holds 2^n - 1 pick-ups and 2^n - 1 put-downs |
| HanoiAgent.RunAppend | mods/TowerofHanoi/agent.py:49-59 | running two move lists one after the other is running their concatenation |
| HanoiAgent.LargestStep | mods/TowerofHanoi/agent.py:56 | moving the largest disk between two poles is legal when the third holds all smaller disks |
| HanoiAgent.HanoiFirstHalf | mods/TowerofHanoi/agent.py:53-54 | the first recursive call moves the top n-1 disks to the spare pole legally |
| HanoiAgent.HanoiSecondHalf | mods/TowerofHanoi/agent.py:58-59 | the second recursive call moves them onto the largest disk legally |
| HanoiAgent.HanoiSolves | mods/TowerofHanoi/agent.py:49-59 | dohanoi moves a tower of n disks from one pole to another, never a larger disk on a smaller, whatever lies below |
| HanoiAgent.HanoiSolvesPuzzle | mods/TowerofHanoi/agent.py:68 | from all disks on a, the plan's moves are all legal and end with all disks on c |
| HanoiAgent.Disks | mods/TowerofHanoi/agent.py:68 | the initial tower lists disk sizes 1..n from the top |
| HanoiAgent.Generated | mods/TowerofHanoi/agent.py:61-72 | the whole generated action stream |
| HanoiAgent.GeneratedShape | mods/TowerofHanoi/agent.py:61-72 | the stream starts with [1, 5], ends with the celebration, and holds 2^n - 1 pick-ups and put-downs |
| HanoiAgent.ProblemReductionAgent.constructor | mods/TowerofHanoi/agent.py:38-39 | no action stream yet |
| HanoiAgent.ProblemReductionAgent.Start | mods/TowerofHanoi/agent.py:96-102 | the first action of the stream (1), the rest kept pending |
| HanoiAgent.ProblemReductionAgent.Act | mods/TowerofHanoi/agent.py:109-116 | the next pending action, or 1 once the stream is exhausted or was never started |
| HanoiAgent.Lower | mods/TowerofHanoi/agent.py:436 | string.lower on ASCII: each character lowered, the length kept |
| HanoiAgent.TitleFromLower | mods/TowerofHanoi/agent.py:458 | str.title keeps the characters up to case |
| HanoiAgent.TitleFromSpaces | mods/TowerofHanoi/agent.py:458 | str.title keeps whitespace and the length |
| HanoiAgent.WordEnd | mods/TowerofHanoi/agent.py:437 | the end of the word starting here: no whitespace before it, whitespace or the end at it |
| HanoiAgent.SplitJoin | mods/TowerofHanoi/agent.py:437 | joining the split words with single spaces gives back every word, in order |
| HanoiAgent.KeptWordsAreWords | mods/TowerofHanoi/agent.py:455-457 | the kept words are words of the split |
| HanoiAgent.KeptWordsAreMentions | mods/TowerofHanoi/agent.py:455-457 | each kept word contains "disk" or "pole", comes from the plan, and there are no more of them than words |
| HanoiAgent.ParseHelper | mods/TowerofHanoi/agent.py:449-459 | the loop: every kept word title-cased, each followed by a space |
| HanoiAgent.ParseHelperWords | mods/TowerofHanoi/agent.py:449-459 | splitting the helper's result gives the kept words, title-cased |
| HanoiAgent.SemanticParser | mods/TowerofHanoi/agent.py:430-447 | IndexError exactly when the plan has no words; the lowered plan when the first word is not a command |
| HanoiAgent.KeyThenWords | mods/TowerofHanoi/agent.py:440-445 | the command key followed by the helper's words splits into the key then those words |
| HanoiAgent.SemanticParserWords | mods/TowerofHanoi/agent.py:430-447 | a recognised command gives its key followed by the kept words |
| HanoiAgent.RoutinesAbCarryOnce | mods/TowerofHanoi/agent.py:25-26 | the routines between poles a and b each pick up exactly once and put down exactly once, the pick-up first |
| HanoiAgent.RoutinesAcCarryOnce | mods/TowerofHanoi/agent.py:27-28 | the routines between poles a and c each pick up exactly once and put down exactly once, the pick-up first |
| HanoiAgent.RoutinesBcCarryOnce | mods/TowerofHanoi/agent.py:29-30 | the routines between poles b and c each pick up exactly once and put down exactly once, the pick-up first |
| HanoiAgent.BookendsCarryNothing | mods/TowerofHanoi/agent.py:24-31 | the opening turn and the celebration neither pick up nor put down |
| HanoiAgent.SplitWords | mods/TowerofHanoi/agent.py:437 | every piece str.split yields is a non-empty word without whitespace |
| HanoiAgent.WordEndOfWord | mods/TowerofHanoi/agent.py:437 | a word followed by whitespace ends exactly where the word ends |
| HanoiAgent.TitleFrom | mods/TowerofHanoi/agent.py:458 | str.title keeps the length of the text |
| HanoiEnvironment.Round | trunk/mods/TowerofHanoi/environment.py:62 | Python 2 round: within one half of the argument |
| HanoiEnvironment.GridRoundTrip | trunk/mods/TowerofHanoi/environment.py:60-66 | xy2rc(rc2xy(r, c)) == (r, c) |
| HanoiEnvironment.NearestRow | trunk/mods/TowerofHanoi/environment.py:60-66 | rc2xy of xy2rc(x) is within half a grid step of x |
| HanoiEnvironment.Top | trunk/mods/TowerofHanoi/environment.py:198-199 | following above links ends on a block with nothing above, in the same cell, no lower |
| HanoiEnvironment.FirstAt | trunk/mods/TowerofHanoi/environment.py:192-196 | the first listed block on the cell; None exactly when none is there |
| HanoiEnvironment.TopAtIsTop | trunk/mods/TowerofHanoi/environment.py:191-202 | get_top_block gives a top block on the cell, None exactly when the cell is empty |
| HanoiEnvironment.Heading | trunk/mods/TowerofHanoi/environment.py:324 | MOVES[int(z/90)]: a unit step for -450 < z < 360, IndexError otherwise |
| HanoiEnvironment.PlaceHeldKeepsStacks | trunk/mods/TowerofHanoi/environment.py:320-349 | put-down keeps every stack well linked and lighter towards the top |
| HanoiEnvironment.PlaceHeldPlaces | trunk/mods/TowerofHanoi/environment.py:326-349 | put down on an empty cell at height 0, on a heavier top one level up, otherwise still held |
| HanoiEnvironment.DetachKeepsStacks | trunk/mods/TowerofHanoi/environment.py:364-367 | detaching the top block keeps every stack well linked and touches only it and the block below |
| HanoiEnvironment.StepsKeepStacks | trunk/mods/TowerofHanoi/environment.py:320-372 | pick-up and put-down each keep stacks well linked and the held block detached |
| HanoiEnvironment.PutBackRefused | trunk/mods/TowerofHanoi/environment.py:191-202 | the lone block, picked up, cannot be put back on its cell |
| HanoiEnvironment.CorrectedPutDown | trunk/mods/TowerofHanoi/environment.py:320-349 | with the corrected lookup the held block is put down unless the top is lighter, and stacks stay ordered |
| HanoiEnvironment.CorrectedPutBack | trunk/mods/TowerofHanoi/environment.py:320-349 | with the corrected lookup the lone block is put back |
| HanoiEnvironment.Tower | trunk/mods/TowerofHanoi/environment.py:116-173 | the intended initial tower has blocks 0..m-1 |
| HanoiEnvironment.OneDiskFails | trunk/mods/TowerofHanoi/environment.py:164-165 | with one disk initialize_blocks fails on the missing green block; from two disks it succeeds |
| HanoiEnvironment.TowerIsStack | trunk/mods/TowerofHanoi/environment.py:116-173 | the initial tower is one ordered stack whose top is the lightest block |
| HanoiEnvironment.AgentState.constructor | trunk/mods/TowerofHanoi/environment.py:44-58 | at (0, 0), empty-handed, rotation 0 |
| HanoiEnvironment.AgentState.Reset | trunk/mods/TowerofHanoi/environment.py:68-73 | back at (0, 0), goal not reached, empty-handed, facing the initial rotation |
| HanoiEnvironment.TowerEnvironment.GetTopBlock | trunk/mods/TowerofHanoi/environment.py:191-202 | the two loops compute get_top_block |
| HanoiEnvironment.TowerEnvironment.PutDown | trunk/mods/TowerofHanoi/environment.py:302 | prev_rc updated; the put-down rule applied, reward -1; stacks stay ordered |
| HanoiEnvironment.TowerEnvironment.PickUp | trunk/mods/TowerofHanoi/environment.py:302 | prev_rc updated; the pick-up rule applied, reward -1; stacks stay ordered |
| HanoiEnvironment.RoundOfInteger | trunk/mods/TowerofHanoi/environment.py:62 | rounding a whole number gives it back |
| HanoiEnvironment.TopNotDetached | trunk/mods/TowerofHanoi/environment.py:198-199 | following the above links from any other block never reaches the held block |
| HanoiEnvironment.TopOfTower | trunk/mods/TowerofHanoi/environment.py:116-173 | in the initial tower the top reached from any block is the lightest block |
| MazeAgent.ActionIndex | mods/Maze/agent.py:15-21 | the action index of a move in MOVES; None exactly when the move is not in MOVES |
| MazeAgent.ActionReachesNeighbour | mods/Maze/agent.py:226-235 | the action found for a cell difference moves to that cell |
| MazeAgent.OpenMembers | mods/Maze/agent.py:252-262 | the queued neighbours are exactly the open ones not enqueued, each once, at most four |
| MazeAgent.BackTo | mods/Maze/agent.py:262 | a backpointer to the visited cell for exactly the new cells |
| MazeAgent.ChainLinks | mods/Maze/agent.py:198-199 | each cell of the backpointer walk is the backpointer of the one before |
| MazeAgent.NextStep | mods/Maze/agent.py:192-203 | get_next_step: where the walk back from the target meets the current cell the step is a cell of that walk; where it never does, the step is the current cell's backpointer, and KeyError when it has none |
| MazeAgent.NextStepFound | mods/Maze/agent.py:198-202 | where the walk meets the current cell, the step is the cell met just before (IndexError on the first) |
| MazeAgent.NextStepIsTreeEdge | mods/Maze/agent.py:192-203 | the next step follows one backpointer edge from or to the current cell; KeyError only when it has no backpointer |
| MazeAgent.VisitCellKeeps | mods/Maze/agent.py:242-246 | marking a cell visited keeps visited within enqueued and the backpointers acyclic |
| MazeAgent.EnqueueKeeps | mods/Maze/agent.py:252-262 | queueing new cells with backpointers to an enqueued cell keeps the backpointers acyclic and within enqueued |
| MazeAgent.SearchAgent.constructor | mods/Maze/agent.py:165-183 | nothing queued, visited or enqueued, no backpointers, no goal |
| MazeAgent.SearchAgent.Reset | mods/Maze/agent.py:174-183 | nothing queued, visited or enqueued, no backpointers, no goal; the strategy kept |
| MazeAgent.SearchAgent.Deque | mods/Maze/agent.py:208-209 | the strategy's cell removed from the queue; IndexError on an empty queue |
| MazeAgent.SearchAgent.Visit | mods/Maze/agent.py:238-262 | the cell visited and enqueued, a reached goal dropped, the open unenqueued neighbours queued in move order with backpointers; bookkeeping kept |
| MazeAgent.SearchAgent.MarkVisited | mods/Maze/agent.py:242-250 | the cell visited and enqueued, a reached goal dropped |
| MazeAgent.SearchAgent.Enqueue | mods/Maze/agent.py:257-262 | new cells queued and enqueued with backpointers to the cell; bookkeeping kept |
| MazeAgent.SearchAgent.GetNextStep | mods/Maze/agent.py:192-203 | the loop computes the walk-back step, with the IndexError and KeyError cases |
| MazeAgent.SearchAgent.GetAction | mods/Maze/agent.py:211-236 | a missing goal taken from the queue; direct action when one open move away, else the action of the next step |
| MazeAgent.NewNeighbours | mods/Maze/agent.py:252-262 | visit's loop yields the open, unenqueued neighbours in move order; the source's assertion on line 261 holds |
| MazeAgent.OpenNeighbours | mods/Maze/agent.py:106-115 | dfs_action's loop yields the open unvisited neighbours in move order |
| MazeAgent.FirstUnvisited | mods/Maze/agent.py:117-120 | the first unvisited position of the adjacency list, its length when all are visited |
| MazeAgent.DfsTarget | mods/Maze/agent.py:116-125 | nowhere to go exactly when all neighbours are visited and there is no parent; otherwise an unvisited neighbour when one exists |
| MazeAgent.DfsAgent.constructor | mods/Maze/agent.py:92-100 | no visits, adjacency lists, parents or backpointers |
| MazeAgent.DfsAgent.Reset | mods/Maze/agent.py:144-147 | visits, parents and backpointers forgotten, adjacency lists kept |
| MazeAgent.DfsAgent.DfsAction | mods/Maze/agent.py:102-134 | first visit records the adjacency list and parents; heads for the first unvisited neighbour or the parent (KeyError without one); backpointer set once |
| MazeAgent.Popped | mods/Maze/agent.py:380-383 | deque hands out the queue's first cell and leaves the other cells, as a multiset |
| MazeAgent.Pushed | mods/Maze/agent.py:376-378 | enque adds exactly the new cells to the queue, as a multiset |
| MazeAgent.FirstInFirstOut | mods/Maze/agent.py:323-327 | breadth-first search appends new cells and hands out the oldest, the rest staying in order |
| MazeAgent.AStarNearestFirst | mods/Maze/agent.py:376-383 | A*'s pushes and pops keep the queue a heap, and the cell popped is nearest the far corner of all queued cells |
| MazeAgent.FirstIndex | mods/Maze/agent.py:198-199 | the first position of a listed cell: the cell is there and not before |
| MazeAgent.FirstIndexUnique | mods/Maze/agent.py:198-199 | a position holding the cell with no earlier occurrence is the first position |
| MazeAgent.FirstUnvisitedUnique | mods/Maze/agent.py:117-120 | a position with only visited cells before it and an unvisited one there, or the end, is the first unvisited position |
| MazeFrontier.Swap | mods/Maze/agent.py:376-383 | two queue positions exchanged, every other position and the multiset of cells kept |
| MazeFrontier.SiftDown | mods/Maze/agent.py:376-378 | heappush's sift towards the root keeps the length and the multiset of cells |
| MazeFrontier.SiftUp | mods/Maze/agent.py:380-383 | heappop's sift from the root keeps the length and the multiset of cells |
| MazeFrontier.NearerChild | mods/Maze/agent.py:28-29 | the child the sift descends to is a child of the position and compares no greater than any other child by the heuristic |
| MazeFrontier.HeapPush | mods/Maze/agent.py:376-378 | heappush adds exactly the cell to the queue |
| MazeFrontier.HeapPop | mods/Maze/agent.py:380-383 | heappop hands out the root and leaves exactly the other cells |
| MazeFrontier.PopAll | mods/Maze/agent.py:380-383 | repeated heappops hand out as many cells as were queued |
| MazeFrontier.PushAll | mods/Maze/agent.py:376-378 | pushing cells one by one adds as many cells as were pushed |
| MazeFrontier.PushAllAdds | mods/Maze/agent.py:376-378 | pushing cells one by one adds exactly those cells to the queue |
| MazeFrontier.SiftDownHeap | mods/Maze/agent.py:376-378 | moving a cell nearer the corner towards the root restores the heap invariant |
| MazeFrontier.SwapRises | mods/Maze/agent.py:376-378 | one step of that sift keeps the cell rising and the rest ordered |
| MazeFrontier.SiftUpHeap | mods/Maze/agent.py:380-383 | walking the moved cell to a leaf and sifting it back restores the heap invariant |
| MazeFrontier.SwapSinks | mods/Maze/agent.py:380-383 | one step of that walk keeps the rest ordered |
| MazeFrontier.PushKeepsHeap | mods/Maze/agent.py:376-378 | heappush keeps the heap invariant |
| MazeFrontier.PushAllKeepsHeap | mods/Maze/agent.py:376-378 | pushing cells one by one keeps the heap invariant |
| MazeFrontier.RootIsNearest | mods/Maze/agent.py:12-13 | the root of a heap has the least Manhattan distance to the far corner of all queued cells |
| MazeFrontier.PopNearest | mods/Maze/agent.py:380-383 | heappop on a heap hands out a cell nearest the far corner and leaves a heap |
| MazeFrontier.PushNoNearer | mods/Maze/agent.py:28-29 | a cell no nearer than any queued cell is pushed to the end, since the comparison is strict |
| MazeFrontier.PushAllTied | mods/Maze/agent.py:376-378 | cells at one distance pushed onto a queue of cells at that distance stay in arrival order |
| MazeFrontier.PopFiveTied | mods/Maze/agent.py:380-383 | popping five tied cells walks the last one down to the right child's place |
| MazeFrontier.PopFourTied | mods/Maze/agent.py:380-383 | popping four tied cells moves the last one into the root's left subtree |
| MazeFrontier.PopThreeTied | mods/Maze/agent.py:380-383 | popping three tied cells leaves the other two in order |
| MazeFrontier.PopTwoTied | mods/Maze/agent.py:380-383 | popping two cells leaves the second |
| MazeFrontier.PopAllStep | mods/Maze/agent.py:380-383 | popping until empty is the root followed by popping the rest |
| MazeFrontier.PopAllPermutes | mods/Maze/agent.py:380-383 | popping until empty hands out every queued cell exactly once |
| MazeFrontier.ConsNearestFirst | mods/Maze/agent.py:380-383 | a cell nearest of all in front of a nearest-first list keeps it nearest-first |
| MazeFrontier.PopAllNearestFirst | mods/Maze/agent.py:380-383 | popping a heap until empty hands out the cells in nondecreasing distance from the far corner |
| MazeFrontier.TiesLeaveInHeapOrder | mods/Maze/agent.py:376-383 | five cells at one distance pushed in the order c0 to c4 are popped as c0, c2, c4, c1, c3, not in arrival order |
| MazeModule.SectionSizeOfDiscrete | trunk/mods/Maze/module.py:17 | a discrete position with whole bounds, min at most max, takes max - min + 1 neurons, at least one |
| MazeModule.NeuronCountAtLeast | trunk/mods/Maze/module.py:8-20 | when every position is such a discrete position there are at least as many neurons as positions |
| MazeModule.CountNeurons | trunk/mods/Maze/module.py:8-20 | count_neurons sums int(max - min + 1) over discrete positions and one over continuous ones |
| MazeModule.OneHot | trunk/mods/Maze/module.py:31-34 | the section exists exactly when the index lies in [-size, size), counting from the end when negative, and has the section size; otherwise IndexError |
| MazeModule.Zeros | trunk/mods/Maze/module.py:32 | a list of the given number of neurons |
| MazeModule.ZerosAreZero | trunk/mods/Maze/module.py:32 | every neuron of that list is 0 |
| MazeModule.OneHotContents | trunk/mods/Maze/module.py:32-34 | the section holds a one at the index and zeros everywhere else |
| MazeModule.EncodeStep | trunk/mods/Maze/module.py:29-38 | a discrete position gives a section of its size; a continuous one fails with NameError, an index past the input with IndexError |
| MazeModule.EncodingLength | trunk/mods/Maze/module.py:28-38 | a successful encoding of the first k positions has their neuron count and all of them are discrete; a failure is a NameError or IndexError |
| MazeModule.EncodingStaysFailed | trunk/mods/Maze/module.py:28-38 | once a position fails, the encoding of every longer prefix fails with the same error |
| MazeModule.Encoded | trunk/mods/Maze/module.py:22-40 | input_to_neurons gives count_neurons neurons, so the length assertion never fails; a failure is a NameError or IndexError |
| MazeModule.EncodePosition | trunk/mods/Maze/module.py:30-35 | the loop body computes one position's section as EncodeStep defines it |
| MazeModule.InputToNeurons | trunk/mods/Maze/module.py:22-40 | the loop computes input_to_neurons as Encoded defines it |
| MazeModule.Slice | trunk/mods/Maze/module.py:55 | Python's slice: the part between the bounds, clamped to the end, with a negative end counted from the back |
| MazeModule.FirstMaxExists | trunk/mods/Maze/module.py:57-58 | every non-empty section has a first maximum |
| MazeModule.FirstMaxUnique | trunk/mods/Maze/module.py:57-58 | a section has only one first maximum |
| MazeModule.FirstMax | trunk/mods/Maze/module.py:57-58 | the position found lies within the section |
| MazeModule.FirstMaxIsFirstMax | trunk/mods/Maze/module.py:57-58 | that position holds the maximum and no earlier position does |
| MazeModule.IndexOfMax | trunk/mods/Maze/module.py:57-58 | max then index: the two passes find the first maximum |
| MazeModule.OneHotFirstMax | trunk/mods/Maze/module.py:32-34 | the first maximum of a one-hot section is its hot position |
| MazeModule.DecodeStep | trunk/mods/Maze/module.py:49-66 | only a discrete position decodes; the assertions, the NameError of the continuous branch and the ValueError of an empty section are the errors |
| MazeModule.NegativeSectionCountsFromBack | trunk/mods/Maze/module.py:54-59 | bounds with max below min give a negative section size and the slice ends that many neurons from the back: min 5, max 0 over six neurons decodes to 6 |
| MazeModule.Decoding | trunk/mods/Maze/module.py:48-66 | the decoding of the first k positions has k values |
| MazeModule.DecodingStaysFailed | trunk/mods/Maze/module.py:48-66 | once a position fails, the decoding of every longer prefix fails with the same error |
| MazeModule.Decoded | trunk/mods/Maze/module.py:42-67 | neurons_to_output gives one value per position |
| MazeModule.DecodePosition | trunk/mods/Maze/module.py:49-66 | the loop body decodes one position as DecodeStep defines it |
| MazeModule.NeuronsToOutput | trunk/mods/Maze/module.py:42-67 | the loop computes neurons_to_output as Decoded defines it |
| MazeModule.DecodingOkBefore | trunk/mods/Maze/module.py:48-66 | a successful decoding succeeded on every shorter prefix |
| MazeModule.DecodingDiscrete | trunk/mods/Maze/module.py:52-66 | only vectors of discrete positions decode successfully |
| MazeModule.SectionOf | trunk/mods/Maze/module.py:30-34 | the section of an accepted value is one-hot at value - min |
| MazeModule.DecodeStepWithin | trunk/mods/Maze/module.py:53-60 | a discrete section within the neurons decodes to min plus the position of its first maximum, and the index moves past the section |
| MazeModule.DecodeStepOfSection | trunk/mods/Maze/module.py:53-60 | neurons holding the section of an accepted value decode to that value and move past the section |
| MazeModule.EncodingPrefix | trunk/mods/Maze/module.py:28-38 | encoding an accepted vector succeeds on every prefix, with at least one neuron per position |
| MazeModule.EncodingSplit | trunk/mods/Maze/module.py:35 | the encoding of k positions is that of k - 1 positions followed by the k-th section |
| MazeModule.EncodingTake | trunk/mods/Maze/module.py:35 | the encoding of fewer positions begins the encoding of more |
| MazeModule.DecodingNext | trunk/mods/Maze/module.py:48-66 | one more position decoded appends its value and moves the index on |
| MazeModule.SectionDecodes | trunk/mods/Maze/module.py:22-66 | each section of an accepted vector's encoding decodes to that position's value |
| MazeModule.SectionsDecode | trunk/mods/Maze/module.py:22-66 | given where each section starts, every section decodes to its value |
| MazeModule.DecodingOfSteps | trunk/mods/Maze/module.py:48-66 | decoding position by position, each step starting where the last ended, yields the values in order |
| MazeModule.RoundTrip | trunk/mods/Maze/module.py:22-67 | neurons_to_output of input_to_neurons gives back every vector the discrete bounds accept |
| NeroEnvironments.AgentState.constructor | mods/NERO/NeroEnvironment.py:15-23 | a fresh state for the agent: both poses at the origin, no damage |
| NeroEnvironments.AgentState.Hit | mods/NERO/NeroEnvironment.py:362 | a hit adds one to the step's damage and leaves the total and the poses alone |
| NeroEnvironments.AgentState.UpdateDamage | mods/NERO/NeroEnvironment.py:43-50 | the step's damage is returned and moved into the total, so no damage is lost or counted twice |
| NeroEnvironments.AgentState.Respawn | mods/NERO/NeroEnvironment.py:31-38 | both poses move to the spawn point with the initial heading; the damage is untouched |
| NeroEnvironments.OtherTeam | mods/NERO/NeroEnvironment.py:210-214 | the other team of the two, never the agent's own |
| NeroEnvironments.Angle | mods/NERO/NeroEnvironment.py:561-574 | 0 at distance 0, otherwise the bearing less the heading, moved by at most one full turn |
| NeroEnvironments.AngleInHalfTurn | mods/NERO/NeroEnvironment.py:561-574 | with a bearing from atan2 and a heading within a full turn either way the relative angle lies in [-180, 180] |
| NeroEnvironments.AngleKeepsHalfTurn | mods/NERO/NeroEnvironment.py:568-573 | a difference already within [-180, 180] is returned unchanged |
| NeroEnvironments.Nearest | mods/NERO/NeroEnvironment.py:576-590 | none exactly when no agent lies strictly between 0 and 5 * MAX_DIST away; otherwise such an agent, no farther than any other at positive distance, and the first of the nearest |
| NeroEnvironments.Environment.constructor | mods/NERO/NeroEnvironment.py:97-129 | the default lifetime and hit points, epsilon the default over 100, a zero weight per fitness dimension, no agent state and two empty rosters |
| NeroEnvironments.Environment.SetWeight | mods/NERO/NeroEnvironment.py:131-132 | the dimension's reward weight is set; the other weights, the agent states, the rosters and the tunables are kept (the forwarding to rtNEAT is under Left out) |
| NeroEnvironments.Environment.GetState | mods/NERO/NeroEnvironment.py:197-204 | a known agent's state is returned unchanged; an unknown agent gets a fresh state filed under its id and joins its team's roster, the roster lookup failing for an unknown team |
| NeroEnvironments.Environment.FriendFoe | mods/NERO/NeroEnvironment.py:206-214 | the agent's own roster and the other team's; KeyError for an unknown team |
| NeroEnvironments.Environment.IsEpisodeOver | mods/NERO/NeroEnvironment.py:599-624 | a turret never ends; a q-learning agent never ends but respawns with its damage cleared when dead or old; any other agent ends exactly when orphaned, dead or old; every other agent's state is unchanged, and so is the agent's own state unless it respawns |
| NeroEnvironments.FriendsHoldTheAgent | mods/NERO/NeroEnvironment.py:197-214 | a registered agent is among its friends, not among its foes, and no agent is both |
| NeroEnvironments.DamageCollectedOnce | mods/NERO/NeroEnvironment.py:43-50 | two hits collected give 2, a second collection 0, and a total of 2 |
| NeroEnvironments.QLearningRespawns | mods/NERO/NeroEnvironment.py:609-616 | a q-learning agent whose damage reached the hit points goes on with its total cleared |
| NeroEnvironments.RtneatAgentDies | mods/NERO/NeroEnvironment.py:618-624 | an rtNEAT agent whose damage reached the hit points has its episode over |
| NeroModules.RunAppend | branches/cleanmod/mods/NERO/module.py:279-313 | splitting a file in two parts is splitting the first and carrying its state into the second |
| NeroModules.SplitPopulation | branches/cleanmod/mods/NERO/module.py:274-314 | _split_population's loop joins the rtNEAT, q-learning and statistics lines the splitter routes from the idle state |
| NeroModules.UnmarkedLinesDropped | branches/cleanmod/mods/NERO/module.py:280-289 | while idle, lines with no genome, q-learning or message marker go to no output |
| NeroModules.GenomeBody | branches/cleanmod/mods/NERO/module.py:290-293 | inside a genome every line goes to the rtNEAT output up to the genomeend line, which returns to idle |
| NeroModules.GenomeRoutedToRtneat | branches/cleanmod/mods/NERO/module.py:281-293 | a whole genome, from genomestart to genomeend, goes to the rtNEAT output |
| NeroModules.MessageBody | branches/cleanmod/mods/NERO/module.py:309-312 | inside a message every line goes to the statistics output up to the one holding </message>, which returns to idle |
| NeroModules.MessageRoutedToStats | branches/cleanmod/mods/NERO/module.py:287-312 | a whole message goes to the statistics output |
| NeroModules.QLearningBody | branches/cleanmod/mods/NERO/module.py:294-307 | inside a q-learning agent non-blank lines go to the q-learning output and a blank line closes the chunk with a separator |
| NeroModules.QLearningRoutedToQLearning | branches/cleanmod/mods/NERO/module.py:284-307 | a whole q-learning agent goes to the q-learning output, followed by a separator |
| NeroModules.BlankHasNoMarker | branches/cleanmod/mods/NERO/module.py:305-307 | a blank line carries no marker, so it only closes a q-learning chunk |
| NeroModules.StepDrawnFrom | branches/cleanmod/mods/NERO/module.py:279-313 | one line routed keeps every output line drawn from the file |
| NeroModules.RunDrawnFrom | branches/cleanmod/mods/NERO/module.py:279-313 | routing more lines of the file keeps every output line drawn from it |
| NeroModules.OutputsComeFromInput | branches/cleanmod/mods/NERO/module.py:274-314 | every rtNEAT and statistics line, and every q-learning line but the separators, is a line of the file |
| NeroModules.ParseInt | branches/cleanmod/mods/NERO/module.py:477 | Python 2's int() on a str: a number is read only from text holding a digit, and a negative one only from text holding a minus sign; ParseIntRoundTrip, ParseSpacedSign and NoDigitsNoNumber give what it accepts |
| NeroModules.NothingToTrim | branches/cleanmod/mods/NERO/module.py:477 | text without surrounding whitespace is left as it is before int() reads it |
| NeroModules.ParseDigits | branches/cleanmod/mods/NERO/module.py:477 | int() reads a run of decimal digits, with or without a minus sign, as its value |
| NeroModules.ParseNegative | branches/cleanmod/mods/NERO/module.py:477 | int() reads a minus sign followed by digits as the negated value |
| NeroModules.ParseIntRoundTrip | branches/cleanmod/mods/NERO/module.py:477 | int() reads str(n) back as n |
| NeroModules.TrimKeepsCharacters | branches/cleanmod/mods/NERO/module.py:477 | stripping whitespace only removes characters |
| NeroModules.NoDigitsNoNumber | branches/cleanmod/mods/NERO/module.py:477 | a text without a digit is not a number: int() raises ValueError |
| NeroModules.Command | branches/cleanmod/mods/NERO/module.py:469-498 | the command fails exactly when it is upper-case and its argument is not a number, with ValueError |
| NeroModules.TunableCommands | branches/cleanmod/mods/NERO/module.py:476-481 | LT, EE, HP and SP read the argument as a decimal number and act on it |
| NeroModules.UpperPair | branches/cleanmod/mods/NERO/module.py:476 | a two-letter upper-case command counts as upper-case text |
| NeroModules.LastEntryWins | branches/cleanmod/mods/NERO/module.py:448-457 | the weight of a dimension is the last entry that names it, shifted by 100 and brought back into [-1, 1] |
| NeroModules.Untouched | branches/cleanmod/mods/NERO/module.py:448-457 | a weight no entry names keeps its value, and no entry adds it |
| NeroModules.NeroModule.constructor | branches/cleanmod/mods/NERO/module.py:23-31 | no environment yet, and the frame delay set for the default speed-up |
| NeroModules.NeroModule.SetSpeedup | branches/cleanmod/mods/NERO/module.py:316-320 | the frame delay is 1 - speedup/100, and an environment's speed-up becomes speedup/100 with nothing else changed |
| NeroModules.NeroModule.SetWeight | branches/cleanmod/mods/NERO/module.py:327-329 | a client value in [0, 200] becomes the weight (value - 100)/100; AttributeError without an environment |
| NeroModules.NeroModule.ParseInputCommand | branches/cleanmod/mods/NERO/module.py:469-498 | LT, EE and HP set the lifetime, epsilon (over 100) and hit points, AttributeError without an environment; SP sets the speed-up; the other commands are forwarded unchanged; a bad number changes nothing |
| NeroModules.NeroModule.ParseInputFitness | branches/cleanmod/mods/NERO/module.py:448-457 | the entries' weights are set in turn, as the fitness update describes, until an error |
| BattleTournament.SplitLines | branches/cleanmod/misc/tourney/battle_tournament.py:104 | str.splitlines: no lines for empty text and at most one line per character; LinesHaveNoBreaks, SplitJoinedLines and LinesOfOneLine state what the lines are |
| BattleTournament.LineEnd | branches/cleanmod/misc/tourney/battle_tournament.py:104 | the first line ends within the text |
| BattleTournament.LineEndIsFirstBreak | branches/cleanmod/misc/tourney/battle_tournament.py:104 | the first line holds no line break and ends at the first one, if any |
| BattleTournament.LinesHaveNoBreaks | branches/cleanmod/misc/tourney/battle_tournament.py:104 | no line str.splitlines yields holds a line break |
| BattleTournament.SplitJoinedLines | branches/cleanmod/misc/tourney/battle_tournament.py:104 | str.splitlines gives back lines written one after the other, each ended by a newline |
| BattleTournament.LinesOfOneLine | branches/cleanmod/misc/tourney/battle_tournament.py:104 | a non-empty text without line breaks is one line |
| BattleTournament.MatchAt | branches/cleanmod/misc/tourney/battle_tournament.py:105 | the score pattern anchored at a position matches only text that starts with its fixed prefix and goes on after it; ScoreLineParses shows it reads a battle's score line as its two damages |
| BattleTournament.DigitRun | branches/cleanmod/misc/tourney/battle_tournament.py:105 | the run of digits \d+ matches lies within the text |
| BattleTournament.DigitRunIsMaximal | branches/cleanmod/misc/tourney/battle_tournament.py:105 | \d+ takes every leading digit and stops at the first non-digit |
| BattleTournament.DigitRunOfNumber | branches/cleanmod/misc/tourney/battle_tournament.py:105 | a number followed by a non-digit is read to its end |
| BattleTournament.Search | branches/cleanmod/misc/tourney/battle_tournament.py:105 | re.search of the score pattern in a line finds a match only in a line longer than the pattern's fixed prefix; SearchIsLeftmost states that it is the match at the leftmost position where the pattern matches, and none only when it matches nowhere |
| BattleTournament.SearchIsLeftmost | branches/cleanmod/misc/tourney/battle_tournament.py:105 | re.search finds the leftmost position where the pattern matches, and nothing only when it matches nowhere |
| BattleTournament.ScoreLineParses | branches/cleanmod/misc/tourney/battle_tournament.py:105 | the score line a battle prints is found and read as its blue and red damages |
| BattleTournament.ScoreLineHasNoBreaks | branches/cleanmod/misc/tourney/battle_tournament.py:33 | the score line is a single line |
| BattleTournament.ParseScores | branches/cleanmod/misc/tourney/battle_tournament.py:101-112 | the loop gives the final score of the log's lines |
| BattleTournament.FinalIsLastMatch | branches/cleanmod/misc/tourney/battle_tournament.py:101-112 | the score is (-1, -1) exactly when no line matches; otherwise the last matching line's damages, swapped |
| BattleTournament.OneScoreLog | branches/cleanmod/misc/tourney/battle_tournament.py:30-33 | a log of one score line parses to its damages swapped: the dry-run bracket's log scores (1, 0) |
| BattleTournament.RFind | branches/cleanmod/misc/tourney/battle_tournament.py:36 | the last position of the character, or -1; the position holds it |
| BattleTournament.StripExtension | branches/cleanmod/misc/tourney/battle_tournament.py:36 | os.path.splitext(s)[0] is a prefix of the path, cut, if at all, at a dot |
| BattleTournament.RFindIsLast | branches/cleanmod/misc/tourney/battle_tournament.py:36 | no later position holds the character |
| BattleTournament.SkipNonWord | branches/cleanmod/misc/tourney/battle_tournament.py:36 | skipping leading non-word characters never lengthens the text |
| BattleTournament.Collapse | branches/cleanmod/misc/tourney/battle_tournament.py:36 | re.sub(r'\W+', '_', ...) never lengthens the text; CollapseIsWord, CollapseKeepsWords and CollapseRun state what it makes of word and non-word runs |
| BattleTournament.CollapseIsWord | branches/cleanmod/misc/tourney/battle_tournament.py:36 | re.sub(r'\W+', '_', ...) yields only word characters |
| BattleTournament.CollapseKeepsWords | branches/cleanmod/misc/tourney/battle_tournament.py:36 | text of word characters is left alone |
| BattleTournament.SkipRun | branches/cleanmod/misc/tourney/battle_tournament.py:36 | a run of non-word characters is skipped up to the next word character |
| BattleTournament.CollapseAfterWord | branches/cleanmod/misc/tourney/battle_tournament.py:36 | leading word characters are kept and the rest is substituted |
| BattleTournament.CollapseRunStart | branches/cleanmod/misc/tourney/battle_tournament.py:36 | a leading run of non-word characters becomes one '_' |
| BattleTournament.CollapseRun | branches/cleanmod/misc/tourney/battle_tournament.py:36 | a run of non-word characters between word text becomes one '_' |
| BattleTournament.Fmt | branches/cleanmod/misc/tourney/battle_tournament.py:35-36 | fmt yields only word characters and never lengthens the name; FmtOfTeamFile gives a team file's tag |
| BattleTournament.FmtIsTag | branches/cleanmod/misc/tourney/battle_tournament.py:35-36 | fmt yields only word characters and leaves its own tags unchanged |
| BattleTournament.FmtOfTeamFile | branches/cleanmod/misc/tourney/battle_tournament.py:35-36 | a team file in a directory becomes the directory and the name joined by '_', without the extension |
| BattleTournament.Pairs | branches/cleanmod/misc/tourney/battle_tournament.py:223-226 | pairs makes half as many pairs as teams; PairsMeetEnds and PairsCoverTeams state who meets whom |
| BattleTournament.ZipAt | branches/cleanmod/misc/tourney/battle_tournament.py:226 | zip pairs the i-th elements, as many as the shorter list |
| BattleTournament.ReverseAt | branches/cleanmod/misc/tourney/battle_tournament.py:226 | reversed holds the i-th element from the end at position i |
| BattleTournament.PairsMeetEnds | branches/cleanmod/misc/tourney/battle_tournament.py:223-226 | pairs makes half as many pairs as teams, the i-th team against the i-th from the end |
| BattleTournament.FirstsSecondsOfZip | branches/cleanmod/misc/tourney/battle_tournament.py:226 | the first and second members of zipped equal-length lists are the lists |
| BattleTournament.ReverseMultiset | branches/cleanmod/misc/tourney/battle_tournament.py:226 | reversing keeps the teams |
| BattleTournament.PairsOfHalves | branches/cleanmod/misc/tourney/battle_tournament.py:223-226 | the pairs zip the front half with the reversed back half |
| BattleTournament.ZipPrefix | branches/cleanmod/misc/tourney/battle_tournament.py:226 | zip reads no further into the second list than the length of the first |
| BattleTournament.PairsSides | branches/cleanmod/misc/tourney/battle_tournament.py:223-226 | the first teams of the pairs are the front half and the second teams the back half reversed |
| BattleTournament.HalvesCover | branches/cleanmod/misc/tourney/battle_tournament.py:223-226 | the front half, the back half and the middle team of an odd number make up the whole |
| BattleTournament.PairsCoverTeams | branches/cleanmod/misc/tourney/battle_tournament.py:223-226 | every team plays in exactly one pair, except the middle team of an odd number, which sits out |
| BattleTournament.Pow2 | branches/cleanmod/misc/tourney/battle_tournament.py:238 | a power of two is at least one |
| BattleTournament.CeilLog2IsLeast | branches/cleanmod/misc/tourney/battle_tournament.py:238 | the exact ceil(log2 n) gives the least power of two at or above n (the source's floating-point log differs from 2^29 up; see Left out) |
| BattleTournament.Nones | branches/cleanmod/misc/tourney/battle_tournament.py:239 | [None] * l has length l |
| BattleTournament.NonesAreNone | branches/cleanmod/misc/tourney/battle_tournament.py:239 | every entry of [None] * l is None |
| BattleTournament.PadToPowerOf2 | branches/cleanmod/misc/tourney/battle_tournament.py:236-239 | an empty bracket raises ValueError, any other keeps its teams in front (PaddedIsLeastPowerOf2 gives the length, for the exact logarithm; see Left out) |
| BattleTournament.PaddedIsLeastPowerOf2 | branches/cleanmod/misc/tourney/battle_tournament.py:236-239 | an empty bracket raises ValueError; otherwise the teams stay in front, only Nones are added, and the length is the least power of two that holds them (for the exact logarithm; see Left out) |
| BattleTournament.PowerOf2NotPadded | branches/cleanmod/misc/tourney/battle_tournament.py:236-239 | a bracket whose size is already a power of two is not padded (for the exact logarithm; see Left out) |
| BattleTournament.Repeat | branches/cleanmod/misc/tourney/battle_tournament.py:136 | range(rounds) gives rounds turns, none when rounds is negative |
| BattleTournament.Row | branches/cleanmod/misc/tourney/battle_tournament.py:135-139 | one starting team's battles: each against a different team of the list, for the given duration (RowLength counts them) |
| BattleTournament.EnqueueRounds | branches/cleanmod/misc/tourney/battle_tournament.py:136-139 | the innermost loop queues the battle rounds times when the teams differ, and waiting counts the battles queued |
| BattleTournament.EnqueueRow | branches/cleanmod/misc/tourney/battle_tournament.py:135-139 | the two inner loops queue one team's battles against every team in order |
| BattleTournament.EnqueueNext | branches/cleanmod/misc/tourney/battle_tournament.py:135-139 | one turn of the middle loop queues the battles against the next team |
| BattleTournament.Schedule | branches/cleanmod/misc/tourney/battle_tournament.py:127-139 | the round-robin schedule: every battle pits a starting team against a different listed team for the given duration; RoundRobinQueue ties the loops to it and RoundRobinSize counts it |
| BattleTournament.RoundRobinQueue | branches/cleanmod/misc/tourney/battle_tournament.py:127-139 | every ordered pair of different teams is queued rounds times, in loop order, and waiting is the number queued |
| BattleTournament.RowLength | branches/cleanmod/misc/tourney/battle_tournament.py:135-139 | one team's row holds rounds battles per other team |
| BattleTournament.CountDistinct | branches/cleanmod/misc/tourney/battle_tournament.py:127-139 | in a list of distinct teams each team occurs once |
| BattleTournament.CountAbsent | branches/cleanmod/misc/tourney/battle_tournament.py:127-139 | a team not in the list occurs nowhere |
| BattleTournament.ScheduleSize | branches/cleanmod/misc/tourney/battle_tournament.py:127-139 | with distinct teams every starting team queues rounds * (n - 1) battles |
| BattleTournament.RoundRobinSize | branches/cleanmod/misc/tourney/battle_tournament.py:127-139 | round_robin queues rounds * n * (n - 1) battles for n distinct teams |
| BattleTournament.TallyStep | branches/cleanmod/misc/tourney/battle_tournament.py:143-145 | adding one outcome's two scores keeps the board the sums of the scores so far |
| BattleTournament.TallyNext | branches/cleanmod/misc/tourney/battle_tournament.py:141-145 | one more outcome read keeps the board tallied |
| BattleTournament.EarnedOfAbsent | branches/cleanmod/misc/tourney/battle_tournament.py:139 | a team that never played earned nothing |
| BattleTournament.Tally | branches/cleanmod/misc/tourney/battle_tournament.py:139-146 | the scoreboard holds exactly the teams that played, each with the sum of its scores |
| BattleTournament.PlaysSnoc | branches/cleanmod/misc/tourney/battle_tournament.py:141-145 | after one more outcome a team has played exactly when it had before or is one of its two teams |
| PlotServer.MinMaxAreBounds | mods/plot_server.py:61-67 | the least and greatest values of a series bound every element and are attained by one |
| PlotServer.BoundsOfSnoc | mods/plot_server.py:62-65 | the bounds of a series with one more value are the old bounds widened by min/max with it |
| PlotServer.XYData.constructor | mods/plot_server.py:52-59 | a new XYData has empty series and no bounds |
| PlotServer.XYData.Append | mods/plot_server.py:61-67 | the point is added to both series and the bounds stay the least and greatest values of each series (the intended behaviour) |
| PlotServer.XYData.AppendAsWritten | mods/plot_server.py:61-67 | the point is added; each bound is replaced by the new value when the old one is falsy, and xmax tests ymax rather than xmax |
| PlotServer.PointsWithinBounds | mods/plot_server.py:49-67 | every point of the data lies between the kept bounds |
| PlotServer.AsWrittenLosesXMax | mods/plot_server.py:63 | as written, a point with y 0 makes the next append forget the x maximum: (5, 0) then (3, 1) leaves xmax 3 over the xs 5 and 3 |
| PlotServer.AsWrittenLosesZeroMin | mods/plot_server.py:62 | as written, an x minimum of 0 is falsy and forgotten: (0, 1) then (2, 1) leaves xmin 2 |
| PlotServer.AppendKeepsXMax | mods/plot_server.py:61-67 | the same points kept by the intended append give xmin 3 and xmax 5 |
| PlotServer.AgentHistory.constructor | mods/plot_server.py:82-85 | a new history has empty reward and fitness series |
| PlotServer.AgentHistory.Append | mods/plot_server.py:87-89 | append adds one point to the reward series only |
| PlotServer.AgentHistory.Episode | mods/plot_server.py:91-94 | episode copies the last reward point to the fitness series, and does nothing when there is none |
| PlotServer.LearningCurve.constructor | mods/plot_server.py:121-124 | a new curve has no histories and an empty total |
| PlotServer.LearningCurve.Tmax | mods/plot_server.py:129-130 | the span of the logged times once there are two points, 1 before |
| PlotServer.LearningCurve.Fmin | mods/plot_server.py:132-133 | the least logged fitness, 0 when nothing is logged |
| PlotServer.LearningCurve.Fmax | mods/plot_server.py:135-136 | the greatest logged fitness, 1 when nothing is logged |
| PlotServer.LearningCurve.Record | mods/plot_server.py:139-145 | the agent's existing history, or a fresh empty one filed under the agent; no other history changes |
| PlotServer.LearningCurve.File | mods/plot_server.py:144-145 | a new history is filed under a new agent id |
| PlotServer.LearningCurve.Append | mods/plot_server.py:138-149 | the tick is filed under its agent (made on first tick); a step-0 tick closes the agent's episode first, adding the last reward point (both its time and its fitness) to the agent's fitness series; the point goes to the agent's reward series and to the total; no other agent's history changes |
| PlotServer.LearningCurve.AppendToTotal | mods/plot_server.py:149 | the total series gets the point and no history changes |
| PlotServer.LearningCurve.Tick | mods/plot_server.py:146-148 | a tick at step 0 closes the episode, adding the last reward point (its time and its fitness) to the fitness series; then the point goes to the agent's reward series; other agents are untouched |
| PlotServer.TmaxSpansTimes | mods/plot_server.py:129-130 | the time span is never negative and covers the gap between any two logged times |
| MazeEnvironment.LastReward | trunk/mods/Maze/environment.py:30-34 | the end-of-episode reward inside the maze lies in [0, 100) |
| MazeEnvironment.IsUniform | trunk/mods/Maze/environment.py:476-486 | false for no vectors; otherwise true exactly when all equal the first |
| MazeEnvironment.Mod180 | trunk/mods/Maze/environment.py:491 | Python's float remainder by 180 lies in [0, 180) |
| MazeEnvironment.WrapDegrees | trunk/mods/Maze/environment.py:488-494 | wrap_degrees as written always lands in [-180, 180] and leaves a sum already there unchanged |
| MazeEnvironment.WrapDegreesSingleOvershoot | trunk/mods/Maze/environment.py:488-494 | a sum within a full turn either way is brought into [-180, 180] by at most one full turn |
| MazeEnvironment.WrapDegreesFullTurn | trunk/mods/Maze/environment.py:488-494 | 180 + 180 wraps to -180 (and -180 - 180 to 180), half a turn from the direction meant |
| MazeEnvironment.CorrectedWrapDegrees | trunk/mods/Maze/environment.py:488-494 | adding or removing one full turn keeps the direction and lands in [-180, 180] for sums within 540 |
| MazeEnvironment.CorrectedWrapAgrees | trunk/mods/Maze/environment.py:488-494 | the corrected wrap equals the written one strictly within a full turn, and sends 360 to 0 |
| MazeEnvironment.Turn | trunk/mods/Maze/environment.py:252-259 | the turn as written: to the left, towards the target by at most 90 degrees; otherwise always by 90 degrees to the right |
| MazeEnvironment.TurnOvershoots | trunk/mods/Maze/environment.py:252-259 | a heading to the right always turns by 90, passing a target less than 90 away |
| MazeEnvironment.CorrectedTurn | trunk/mods/Maze/environment.py:252-259 | the intended turn moves towards the target by at most 90 and never past it, reaching it when within 90 |
| MazeEnvironment.CorrectedTurnAgrees | trunk/mods/Maze/environment.py:252-259 | left turns agree; right turns agree exactly when the target is at least 90 away |
| MazeEnvironment.StepPose | trunk/mods/Maze/environment.py:196-276 | the discrete step moves the agent only to a cell inside the maze, and flags the goal only on reaching the far corner with the goal reward; StepMovesLegally, StepGoal and StepRewardRange state the rest |
| MazeEnvironment.StepMovesLegally | trunk/mods/Maze/environment.py:215-242 | the agent changes cell only by one unblocked move inside the maze; out-of-bounds moves and wall hits keep the cell and cost 5 |
| MazeEnvironment.StepGoal | trunk/mods/Maze/environment.py:266-269 | the reward 100 is paid exactly when the agent steps onto the far corner; the goal stays reached |
| MazeEnvironment.StepRewardRange | trunk/mods/Maze/environment.py:196-276 | every step reward lies in [-5, 100] |
| MazeEnvironment.AgentState.Counting | trunk/mods/Maze/environment.py:50-51 | the initial history [[0], [1], ...] of the given length |
| MazeEnvironment.AgentState.constructor | trunk/mods/Maze/environment.py:40-52 | at (0, 0), goal not reached, histories of HISTORY_LENGTH entries |
| MazeEnvironment.AgentState.Reset | trunk/mods/Maze/environment.py:54-59 | back at (0, 0), goal not reached, histories refilled; the heading kept |
| MazeEnvironment.AgentState.RecordAction | trunk/mods/Maze/environment.py:70-72 | the oldest action dropped and the new one appended, the length kept; IndexError when empty |
| MazeEnvironment.AgentState.RecordObservation | trunk/mods/Maze/environment.py:74-76 | the oldest observation dropped and the new one appended; IndexError when empty |
| MazeEnvironment.AgentState.RecordReward | trunk/mods/Maze/environment.py:78-81 | the oldest reward dropped and the new one appended and returned; IndexError when empty |
| MazeEnvironment.AgentState.IsStuck | trunk/mods/Maze/environment.py:83-89 | stuck exactly when every recorded action and every recorded observation is the same |
| MazeEnvironment.AgentState.GetReward | trunk/mods/Maze/environment.py:91-95 | the oldest reward removed and returned when the rest equal it; AssertionError otherwise, IndexError when none |
| MazeEnvironment.Environment.constructor | trunk/mods/Maze/environment.py:117-141 | the maze and the step budget |
| MazeEnvironment.Environment.Step | trunk/mods/Maze/environment.py:196-276 | the action recorded, the pose stepped and the reward recorded and returned; IndexError on an empty action history before any change |

## Left out

Byte stream and Irrlicht helpers:
- The constructor from a raw buffer, the copy constructor, assignment, `Stream()` (a raw pointer) and printing to an `ostream`.
- Bitstreams.Bitstream.ReadU16 takes its two bytes high byte first. The source adds two `PopByte()` calls as the operands of `+` (source/core/Bitstream.cpp:230-231), and C++ leaves the order in which they are evaluated unspecified, so the byte order it reads is the compiler's choice. The model fixes the order that matches the writer.
- Bitstreams.Bitstream.ReadU32 takes its four bytes most significant first, where the source's four `PopByte()` operands of `+` (source/core/Bitstream.cpp:240-243) may be evaluated in any order. The signed readers, and IrrUtil's vector and colour readers, inherit this fixed order.
- Bitstreams.Bitstream.WriteStream requires `rhs != this`. Appending a stream to itself pushes into the vector the loop is iterating over, which invalidates its iterators in C++, so the source gives that call no defined meaning.
- Irrlicht's quaternion-to-rotation conversion, rotation interpolation and the reference-count helpers of IrrUtil.h. They call into Irrlicht. A float is carried by its 32-bit pattern, so `float64` values are carried as their two words.

Entity state:
- SimEntityDatas.SimEntityData.SetPosition compares the 32-bit patterns of the two vectors, where `pos != mPosition` (source/game/SimEntityData.cpp:52) compares floats. The model therefore marks a change from +0 to -0, which the source does not. It also does not mark a change from NaN to the same NaN pattern, which the source does.
- SimEntityDatas.SimEntityData.SetRotation compares bit patterns in the same way.
- SimEntityDatas.SimEntityData.SetVelocity compares bit patterns in the same way.
- SimEntityDatas.SimEntityData.SetAcceleration compares bit patterns in the same way.
- SimEntityDatas.SimEntityData.SetScale compares bit patterns in the same way.
- AnimSimEntityDatas.SimEntityData.SetPosition and the other vector setters of the animation variant compare bit patterns in the same way.
- SimEntityData.h is not part of this model, so the kDB_* values are assumed:
  - the nine streamed members' bits are taken as bits 0 to 8, in the order the stream operators use;
  - AnimSimEntityDatas.SimEntityData.SetBumped takes kDB_Bumped as bit 9.

Input:
- IOState.h is not part of this model. IOStates.IOState.HandleIrrKeyboardEvent therefore assumes Irrlicht's key codes: KEY_KEY_CODES_COUNT 0xFF, KEY_SHIFT 0x10 and KEY_CONTROL 0x11. The mouse buttons are taken as left 0, right 1 and middle 2.
- IOStates.IOState.HandleIrrMouseEvent computes the pointer deltas as unbounded integers. The source subtracts 32-bit ints, which can overflow for extreme coordinates.
- IOMapping.h is not part of this model. IOMappings.GetInputCode therefore takes kInputMod_Shift as bit 30 and kInputMod_Ctrl as bit 31, with the input types and mouse buttons numbered in declaration order.
- Irrlicht's key-name table is a parameter.
- The actions bound to input are Python callbacks. The model records which ones fire; their effects are outside it.

GUI and rendering:
- GUI manager:
  - the counter is per manager rather than static;
  - the Irrlicht side is out: removeFromScene, the proxy, the sim factory, focus, events, the file chooser, transparency and fonts;
  - the factories' CreateElement produce nameless, childless elements;
  - child ids are taken as uint32.
- Scene objects:
  - Irrlicht scene nodes, meshes, textures (the "Texture" keys of the same loop load files), animation, cameras and triangle selectors are out;
  - the shader load is a parameter;
  - `SimId` is taken to be 32 bits wide, because the simulation id typedef is not part of this model.

Performance counters:
- The report writers and the per-event getters GetTimeThisFrame, GetTimePerFrame, GetTimePerCall, GetTotalTime, GetMax and GetMin (branches/merge/source/utils/Performance.cpp:157-220) are out.
- The clock is a parameter, the static sbEnableEvents is a field, and the singleton is one object.
- PerformanceMetrics.PerformanceMetricManager.EndSimulationFrame counts frames and calls with unbounded naturals. The uint32 wrap of the source's counters is dropped; Performance.h, which declares their widths, is not part of this model.
- PerformanceMetrics.PerformanceMetricManager.GetCallsPerFrame is a real quotient, where the source computes a float32.

Simulation:
- ProcessTick's entity callbacks (BeforeTick, TickScene, TickAI) are out. Those callbacks may themselves flag or add entities; the model's tick does not.
- Also out: the collision candidate list, ProcessAnimationTick, FindBySceneObjectId, the frame delay and the max id.
- Simulations.Simulation.ProcessTick does not call `SetBumped(false)` on the entities it keeps (source/game/Simulation.cpp:179), because the entity's bumped flag is not part of the registry model.
- Simulations.SimEntity is reduced to its id, type word and removal flag; SimEntity.cpp is not part of this model.
- PropertyMap:
  - XML parsing and the 'Uses' recursion are file I/O, so the chain of documents is given;
  - PyGetStringValue and the generic getValue are out, because PropertyMap.h is not part of this model;
  - a TinyXML node that is not an element (such as a comment) is not modelled: FirstChild sees elements only.

AI data structures:
- Feature vectors:
  - getRandom (random generator), the stream printing operators and hash_value are out;
  - `>>` lexing of text into numbers is out: tokens are given as numbers or words, and "1.5" read by `>> int` is taken as unreadable rather than as 1 followed by ".5";
  - Convert requires min < max for every triple, which is addDiscrete's and addContinuous's assertion.
- Vector arithmetic:
  - FeatureVectorArithmetic.Over and OverAssign require a non-zero divisor, because IEEE infinities and NaN are not modelled;
  - the compound operators require equal lengths, as the source's assertion does, so their min-length loop condition is not exercised;
  - the AgentInitInfo of branches/cs394n-f11 is the one modelled in FeatureVectors.
- Approximators:
  - TilesApproximator is out: its random initial weights, its tile coding through GetTiles and its learning-rate updates. The tile hashing itself is in `Tiles`;
  - serialization and the base class's copy of the AgentInitInfo are out;
  - Approximators.Quantize requires bins != 1 and lo < hi at the continuous positions it bins. The source divides by zero there and computes infinities or NaN.
- Tiles:
  - the rand() initialization of rndseq is out: rndseq is a parameter, 2048 words below 2^32;
  - GetTiles over a collision table, and the many GetTiles, GetTiles1 and GetTiles2 wrappers through static scratch arrays, are out. They hash the same coordinates with hashfunction;
  - the MAX_NUM_VARS buffer bounds and the float32 rounding of floats * num_tilings are out;
  - `long` is taken as 64 bits and MaxLONGINT as 2147483647, because tiles2.h is not part of this model;
  - Tiles.Mod does not model the overflow of `-n` at INT_MIN;
  - the out-of-memory exit and the bad-size exit are modelled as a failed result (None), and printf is out.

rtNEAT:
- Genome constructors: the other constructors are out (file loading, the random genome, copy, and from links), as are genesis, mutations other than reenable, mating and traits beyond their count.
- Also out: get_last_gene_innovnum (it asserts on the node list but reads the last gene), and print and file I/O.
- Genomes.Verified compares nodes by value where the source compares pointers. The two differ only when a genome holds two equal but distinct node objects.
- The type-2 constructor needs num_in > 0 when there are outputs; otherwise it dereferences a null bias node. The model links no bias then.
- Genomes.Genome.Compatibility's divide by zero, when no gene matches, gives None.
- gene.cpp is not part of this model, so a new gene is taken to be enabled.
- Nodes:
  - the constructors from a file, from another node and the copy constructor are out (the copy assigns dup to analogue);
  - the three-argument constructor leaves override_value uninitialised; the model takes it as 0;
  - also out: activesum, the output and active_flag fields that the network code uses, derive_trait and traits, link weights, the added_weight that flushback zeroes, get_analogue, sensor names and print_to_file;
  - activation_count is an S32 and could wrap; the model takes it as unbounded.
- Species:
  - reproduce, reproduce_one, count_offspring, last_improved, the printers and the console are out;
  - compute_average_fitness is out: it divides by the size, which is undefined for an empty species;
  - order_orgs is in organism.cpp, which is not part of this model, so rank is taken to order by fitness, higher first. A stable order among equals is not claimed;
  - Speciation.Species.AdjustFitness requires a non-empty species, because the source dereferences its first organism. It also requires distinct members, since a species holding one organism twice would share its fitness twice;
  - fitness is a real number, not a 64-bit float.
- Populations:
  - out: the constructors (spawn, clone and from files), speciate, epoch and the generational code, reproduce_champ, choose_parent_species, remove_worst_probabilistic and the printers;
  - compat_threshold and the coefficients are parameters;
  - an organism pointing to no species (a null comparison organism) does not arise in the model.
- Populations.Population.RemoveWorst requires the invariant the population keeps: every organism is listed once, belongs to the species it points to, and has a non-negative time alive. Without it the source would divide by an empty species' size, or compute the next multiple of a negative time as unsigned.
- Populations.Population.AddOrganism requires every species to have a first member, as first() asserts for every species the search reaches.

Advice language:
- buildRepresentation of every node, getNode and the network construction are out. They build genes and nodes; only the weights the constructors choose are modelled, with what they make the nodes compute.
- Also out: print; translateError's line number (a parser counter); and checkRange's message, whose formatted value is omitted.
- Nodes are values, and append and negate return the updated node, since no node is shared in the source's trees.
- AdviceRules.EvaluateConds states the value of every variable afterwards, not the exact length the vector grows to. EvaluateEterm, EvaluateExpr and EvaluateTerm do the same.
- AdviceVariables.ToNetworkAt requires non-degenerate bounds, as does ToAdviceAt. The source would divide by zero and produce an infinity.
- Eterm::evaluate's NaN branch is unreachable with two term kinds.
- The Agent and Variable globals are the Layout parameter, and sensor bounds are a sequence of Bound.

STRIPS planners:
- create_world is out: it parses files with regular expressions.
- print_grounds, `__str__`, print_plan, main and the debug prints are out.
- linear_solver and solve are out: they flatten the world's dictionary of sets, whose order Python leaves unspecified.
- Dictionary and set iteration orders are parameters: the literal list, and the list of each action's groundings.
- GroundedCondition objects compare by identity in the source and by value here. The two differ only when a goal list holds two equal conditions.
- current_plan is only used for debug output.
- state_distance is computed against the world's initial facts, as in the source.
- Strips.LinearSolverHelper carries a `steps` bound and reports OutOfSteps when it runs out. The source's goal loop has no bound and can cycle forever, as Strips.GoalLoopCycles shows on a concrete world, so the model does not follow a run past its bound. No stop-on-revisit behaviour is modelled in its place: the source does not say what such a loop should return.
- StripsPlanning.SolveHelper carries a `fuel` bound and reports OutOfSteps when it runs out. The source's recursion has no bound and can hand each level the goals of the level before, as StripsPlanning.RegressionRepeats shows. solve_helper catches no exception, so under CPython such a run ends when the interpreter's recursion limit raises RuntimeError (maximum recursion depth exceeded); the model reports OutOfSteps where the source raises that error, and at a depth set by the fuel rather than by the interpreter's limit.

Tower of Hanoi:
- The agent file's other agents are out: state-space search, the 2- and 3-disk STRIPS agents and the natural-language agent. They run external scripts and the planner modules through subprocess.
- display_planner and every print are out.
- lower and title act on ASCII only.
- The generator is a list of pending steps.
- dohanoi's unused label text is out.
- From the environment:
  - out: the scene objects, animations, positions and sensors, and step's jump, forward, turn and goal branches;
  - get_block_state, add_block, set_block and remove_block on an existing table are out; initialize_blocks is modelled on an empty table;
  - the grid steps GRID_DX and GRID_DY come from a constants module that is not part of this model, and are parameters;
  - rotations are whole degrees;
  - goal_reached is only set by reset; the constructor sets it to false.

Maze:
- RandomAgent is out, because its actions are random.
- The get_action overrides of BFSSearchAgent, FrontAStarSearchAgent and the cloning agents are out: they teleport or spawn marker agents.
- Every mark_* and highlight call and every print are out.
- The A* frontier follows heapq's list layout (`MazeFrontier`), so cells of equal distance leave in heap order, as in the source.
- Observations carry exactly four wall flags.
- MOVES is taken from trunk/mods/Maze/environment.py:98.
- ROWS and COLS are parameters of the A* strategy.
- start and act are visit followed by get_action.
- mazer.py is not part of this model: rc_bounds is taken as the grid's index range, and is_wall as a set of blocked (cell, move) pairs.
- ROWS, COLS, MAX_STEPS and HISTORY_LENGTH come from a constants module that is not part of this model, and are parameters.
- Also out: the world pose (x, y), positions, animations, timing, sense and the continuous environment.
- The step's validation uses a one-position info [0, 3], so the null action 4 is refused by validation before its own branch.
- Headings of moves are exact multiples of 90, because atan2 is taken on unit moves.
- get_state's per-agent dictionary is out; the step takes the agent's state.
- MazeMod's scene and agent set-up methods (add_maze, set_environment, the start_* methods, the tunable setters) and getMod/delMod are out. They create engine objects.
- The neuron coding's continuous branches refer to an undefined name and end in NameError, which the model returns as an error. int() truncation is written out.

NERO:
- The environment's sense, step, calculate_reward, target, closest_enemy, maybe_spawn, get_friend_center, distance, set_animation, get_hitpoints and cleanup are out. They depend on engine geometry, ray casts and the engine's clock.
- Also out: tracing, demonstration and trace loading, which are file I/O; update_pose, reset_pose and teleporting, which belong to the engine body; and randomize's random spawn point, which is a parameter.
- The module's setup_map, create_environment, the flag and turret placement, deploy, save_team and load_team, start_demonstration, set_spawn, spawnAgent, setAdvice and start_rtneat are out. They create engine objects, read and write files, or start AIs; the command handler returns them as requests.
- ltChange also sets the lifetime of each team's rtNEAT object; that object is outside the model.
- NeroEnvironments.Environment.SetWeight: set_weight also hands the weight to each team's rtNEAT object (`rtneat.set_weight(FITNESS_INDEX[key], value)`, mods/NERO/NeroEnvironment.py:133-136). That object is outside the model, so the forwarding is not modelled.
- NeroModules.ParseInt reads ASCII decimal digits only. On a unicode argument Python's int() also accepts other Unicode decimal digits (Arabic-Indic digits, for example), which the model rejects as a ValueError.
- rtneat_rewards, getServer, ServerMain, parseInput and parseInputAdvice are out: sockets and the advice parser. The XML of a message is given already parsed, as its command and argument or its fitness entries.
- The team values of constants.py are not part of this model; they are taken as two distinct numbers.

Tournament and plotter:
- The battle runner's subprocesses, Condor jobs, worker processes, queues, logging and the test_bracket dry run itself are out. The results queue is a parameter, and a log is given as its text.
- world_cup and double_elimination are out: they play rounds through the runner. Their pairs and pad_to_power_of_2 helpers are modelled.
- BattleTournament.PadToPowerOf2 pads to the least power of two at or above the bracket's size, with an exact integer CeilLog2. The source computes `math.ceil(math.log(len(s), 2))` in floating point (branches/cleanmod/misc/tourney/battle_tournament.py:238). That log is inexact at some powers of two: math.log(2**29, 2) is 29.000000000000004, so the source pads a bracket of 2^29 teams, and likewise ones of 2^31 or 2^39 teams, to twice its size. The two agree on every size below 2^29.
- BattleTournament.CeilLog2IsLeast proves the exact ceiling, not the floating-point one the source computes; they differ from 2^29 up.
- BattleTournament.PaddedIsLeastPowerOf2 holds of the exact padding only; the source doubles a bracket of 2^29, 2^31 or 2^39 teams.
- BattleTournament.PowerOf2NotPadded holds of the exact padding only; the source pads 2^29 teams with 2^29 Nones.
- schedule_battles is out: it starts the workers.
- re.search is modelled for the one pattern parse_scores uses.
- The plotter's log-line parser, time stamps, the socket server, the locks, the drawing and tmin (which is 0) are out.
- The plotter's learning curve uses the corrected XYData.append, so its tmax, fmin and fmax are the true extremes (see Findings).

## Findings

| source | as written | input that shows it | evidently intended | confidence | as-written member | corrected member |
|---|---|---|---|---|---|---|
| source/core/Bitstream.cpp:137-144 | the uint16 writer pushes `val << 8` cast to a byte, which is always 0, as its high byte | 256 is written as the bytes 0, 0 and reads back as 0 | push `val >> 8`, so that the reader's high byte gets the value back | high, not executed | Bitstreams.U16BytesAsWritten / Bitstreams.U16AsWrittenLoses256 | Bitstreams.U16Bytes / Bitstreams.U16StreamRoundTrip |
| source/ai/AI.cpp:77-91 | normalize skips every position whose span max - min is 1 | bounds [3, 4]: 3 stays 3, which is outside [0, 1], and denormalize makes it 6 | subtract min at every position and divide only where the span is not 1 | medium, not executed | FeatureVectors.NormalizedAsWritten / FeatureVectors.AsWrittenSkipsUnitSpans | FeatureVectors.Normalized / FeatureVectors.DenormalizeNormalized |
| branches/adziuk_tournament/source/game/objects/PropertyMap.cpp:418-429 | getValue<bool> sets the out value but always returns false | a section reading "true" is read as true, and the call still reports failure | return true when the value was found | high, not executed | PropertyMaps.GetBoolAsWritten / PropertyMaps.GetBoolReportsFailureOnSuccess | PropertyMaps.GetBool |
| branches/merge/source/utils/Performance.cpp:116-125 | a frame time that raises the maximum is not compared with the minimum (`else if`) | a fresh event timed once at 5 ms keeps the minimum at kMagicNumber | compare the maximum and the minimum independently | medium, not executed | PerformanceMetrics.TrackedAsWritten / PerformanceMetrics.AsWrittenMissesTheMinimum | PerformanceMetrics.Tracked / PerformanceMetrics.TrackedKeepsExtremes |
| branches/rtneat/source/rtneat/genome.cpp:424-454 | the type-1 constructor links each input to the row's output (`curnode2` to `curnode1`) instead of to the hidden node | one input, one hidden node, one output: the genes are 1→3 and 2→3, so the hidden node 2 gets no input | link each input to the hidden node, then the hidden node to the output | high, not executed | Genomes.SplitAsWritten / Genomes.Type1Starves | Genomes.Split / Genomes.CorrectedType1Shape |
| trunk/source/advice/advice_rep.cpp:392-403 | the general-purpose range check adds unsigned 32-bit sums, and for an evolved agent it falls back to the scripted offset | 2 sensors, 0 actions, evolved: g4294967294 gives 0, which reads back as s0 | reject a general variable whose exact packed number reaches UINT_MAX | medium, not executed | AdviceVariables.TranslateGeneralAsWritten / AdviceVariables.AsWrittenMisplaces | AdviceVariables.TranslateExact / AdviceVariables.TranslateInverse |
| trunk/mods/TowerofHanoi/environment.py:191-202 | get_top_block also finds the held block, which keeps its cell while carried | pick up the lone block and put it down on its cell: put-down sees the held block as the top and refuses | leave the held block out of the lookup | medium, not executed | HanoiEnvironment.PutBackRefused | HanoiEnvironment.CorrectedPutDown / HanoiEnvironment.CorrectedPutBack |
| trunk/mods/TowerofHanoi/environment.py:164-165 | initialize_blocks links blue and green unconditionally | num_disks 1: the green block is None and the link raises AttributeError | link only the blocks that exist | low, not executed | HanoiEnvironment.InitialTower / HanoiEnvironment.OneDiskFails | HanoiEnvironment.Tower / HanoiEnvironment.TowerIsStack |
| trunk/mods/Maze/environment.py:488-494 | wrap_degrees maps a sum above 180 to -180 + (sum % 180) | 180 + 180 gives -180, half a turn from the 0 meant | subtract a full turn, 360 | high, not executed | MazeEnvironment.WrapDegreesFullTurn | MazeEnvironment.CorrectedWrapDegrees / MazeEnvironment.CorrectedWrapAgrees |
| trunk/mods/Maze/environment.py:252-259 | a turn to the right always turns by 90 | a target 45 degrees to the right is passed by 45 | turn by at most the remaining angle, as left turns do | medium, not executed | MazeEnvironment.TurnOvershoots | MazeEnvironment.CorrectedTurn / MazeEnvironment.CorrectedTurnAgrees |
| mods/plot_server.py:61-67 | append replaces a bound whenever the old one is falsy, and tests ymax before updating xmax | (5, 0) then (3, 1) leaves xmax 3; (0, 1) then (2, 1) leaves xmin 2 | test `is None`, and test xmax for xmax | high, not executed | PlotServer.XYData.AppendAsWritten / PlotServer.AsWrittenLosesXMax | PlotServer.XYData.Append / PlotServer.PointsWithinBounds |
