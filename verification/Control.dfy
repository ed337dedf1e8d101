/** The control channel: the PC's command encoders and the phone's decoder. */
module Control {
  import opened Bytes
  import ByteIO
  import Activation

  type Name = seq<byte>

  /** A call of the PC's command methods.  Floats travel as their bit patterns. */
  datatype Call =
    | CallResolution(width: uint16, height: uint16)
    | CallFps(fps: int)
    | CallBitrate(kbps: int)
    | CallAdaptiveBitrate(min: int, max: int)
    | CallStabilization(on: bool)
    | CallFlash(on: bool)
    | CallFocusMode(mode: int)
    | CallH265(on: bool)
    | CallSwapCamera
    | CallRotate(degrees: int)
    | CallZoom(factor: uint32)
    | CallFlipHorizontally
    | CallFlipVertically
    | CallCorrectionFilter(name: Name, value: int)
    | CallEffectFilter(name: Name)
    | CallLensZoom(factor: uint32)
    | CallExposure(duration: uint32, iso: uint32)
    | CallWhiteBalance(temperature: uint32, tint: uint32)
    | CallStudioMode(on: bool)
    | CallExposureCompensation(bias: uint32)
    | CallStabilizationMode(mode: int)
    | CallFocusLock(position: uint32)
    | CallTapToFocus(x: uint32, y: uint32)
    | CallMicrophone(on: bool)
    | CallSnapshot
    | CallResetCamera
    | CallPortraitMode(on: bool, strength: int)

  /** What the phone makes of a packet. */
  datatype Command =
    | Activate(configuration: Activation.StreamConfiguration)
    | SetResolution(width: uint16, height: uint16)
    | SwapCamera
    | CorrectionFilter(name: Name, value: byte)
    | EffectFilter(name: Name)
    | Rotate(degrees: int)
    | SetBitrate(kbps: uint16)
    | SetAdaptiveBitrate(min: uint16, max: uint16)
    | SetStabilization(on: bool)
    | SetFlash(on: bool)
    | SetFocusMode(focus: FocusMode)
    | SetCodec(h265: bool)
    | SetFps(fps: byte)
    | SetZoom(factor: uint32)
    | Flip(horizontal: bool)
    | SetLensZoom(factor: uint32)
    | SetExposure(duration: uint32, iso: uint32)
    | SetWhiteBalance(temperature: uint32, tint: uint32)
    | SetStudioMode(on: bool)
    | SetExposureCompensation(bias: uint32)
    | SetStabilizationMode(stabilization: StabilizationMode)
    | SetFocusLock(position: Option<uint32>)
    | TapToFocus(x: uint32, y: uint32)
    | SetMicrophone(on: bool)
    | SnapshotRequest
    | ResetCameraToAuto
    | SetPortraitMode(on: bool, strength: byte)
    | Unknown(opcode: byte, payload: seq<byte>)

  datatype FocusMode = Auto | Manual
  datatype StabilizationMode = Off | Standard | Cinematic | CinematicExtended

  datatype Error = Short(error: ByteIO.Error) | BadActivation(reason: Activation.Error)

  // ---------- the PC ----------

  /** The low byte and the one above it of a C++ int. */
  function Low(x: int): byte { x % 0x100 }
  function High(x: int): byte { x / 0x100 % 0x100 }

  function Flag(b: bool): byte { if b then 1 else 0 }

  /** The bit patterns of floats below zero: not minus zero, not the NaNs. */
  predicate Negative(bits: uint32) { 0x8000_0000 < bits <= 0xFF80_0000 }

  function Encode(c: Call): seq<byte> {
    match c
    case CallResolution(w, h) => [0x01, w % 0x100, w / 0x100, h % 0x100, h / 0x100]
    case CallFps(fps) => [0x0E, Low(fps)]
    case CallBitrate(kbps) => [0x08, Low(kbps), High(kbps)]
    case CallAdaptiveBitrate(lo, hi) => [0x09, Low(lo), High(lo), Low(hi), High(hi)]
    case CallStabilization(on) => [0x0A, Flag(on)]
    case CallFlash(on) => [0x0B, Flag(on)]
    case CallFocusMode(mode) => [0x0C, Low(mode)]
    case CallH265(on) => [0x0D, Flag(on)]
    case CallSwapCamera => [0x03]
    case CallRotate(degrees) => [0x07, Low(degrees)]
    case CallZoom(factor) => [0x0F] + U32LE(factor)
    case CallFlipHorizontally => [0x10, 1]
    case CallFlipVertically => [0x10, 0]
    case CallCorrectionFilter(name, value) => [0x05, Low(|name|)] + name + [Low(value)]
    case CallEffectFilter(name) => [0x06, Low(|name|)] + name
    case CallLensZoom(factor) => [0x20] + U32LE(factor)
    case CallExposure(duration, iso) => [0x21] + U32LE(duration) + U32LE(iso)
    case CallWhiteBalance(temperature, tint) => [0x22] + U32LE(temperature) + U32LE(tint)
    case CallStudioMode(on) => [0x23, Flag(on)]
    case CallExposureCompensation(bias) => [0x24] + U32LE(bias)
    case CallStabilizationMode(mode) => [0x25, Low(mode)]
    case CallFocusLock(position) =>
      if Negative(position) then [0x26, 0xFF, 0xFF, 0xFF, 0xFF] else [0x26] + U32LE(position)
    case CallTapToFocus(x, y) => [0x27] + U32LE(x) + U32LE(y)
    case CallMicrophone(on) => [0x28, Flag(on)]
    case CallSnapshot => [0x29]
    case CallResetCamera => [0x2A]
    case CallPortraitMode(on, strength) => [0x2B, Flag(on), Low(strength)]
  }

  method AppendFloat32LE(out: seq<byte>, bits: uint32) returns (r: seq<byte>)
    ensures r == out + U32LE(bits)
  {
    r := out + [bits % 0x100];
    r := r + [bits / 0x100 % 0x100];
    r := r + [bits / 0x1_0000 % 0x100];
    r := r + [bits / 0x100_0000];
  }

  /** The packets that are pushed together piece by piece; the others are written out as they stand. */
  method BuildPacket(c: Call) returns (packet: seq<byte>)
    ensures packet == Encode(c)
  {
    hide U32LE, Low, High;
    match c {
      case CallCorrectionFilter(name, value) =>
        packet := [0x05];
        packet := packet + [Low(|name|)];
        packet := packet + name;
        packet := packet + [Low(value)];
      case CallEffectFilter(name) =>
        packet := [0x06];
        packet := packet + [Low(|name|)];
        packet := packet + name;
      case CallExposure(duration, iso) =>
        packet := AppendFloat32LE([0x21], duration);
        packet := AppendFloat32LE(packet, iso);
      case CallWhiteBalance(temperature, tint) =>
        packet := AppendFloat32LE([0x22], temperature);
        packet := AppendFloat32LE(packet, tint);
      case CallTapToFocus(x, y) =>
        packet := AppendFloat32LE([0x27], x);
        packet := AppendFloat32LE(packet, y);
      case CallFocusLock(position) =>
        packet := [0x26];
        if Negative(position) {
          packet := packet + [0xFF];
          packet := packet + [0xFF];
          packet := packet + [0xFF];
          packet := packet + [0xFF];
        } else {
          packet := AppendFloat32LE(packet, position);
        }
      case CallZoom(factor) => packet := AppendFloat32LE([0x0F], factor);
      case CallLensZoom(factor) => packet := AppendFloat32LE([0x20], factor);
      case CallExposureCompensation(bias) => packet := AppendFloat32LE([0x24], bias);
      case _ => packet := Encode(c);
    }
  }

  // ---------- the phone ----------

  function ToFocusMode(raw: byte): FocusMode { if raw == 1 then Manual else Auto }

  function ToStabilizationMode(raw: byte): StabilizationMode {
    if raw == 1 then Standard else if raw == 2 then Cinematic else if raw == 3 then CinematicExtended else Off
  }

  /** The unsigned byte read as a signed one. */
  function Signed(raw: byte): int { if raw < 0x80 then raw else raw - 0x100 }

  /** One read at the cursor: the bytes are there, or the stream ends early. */
  function Need(b: seq<byte>, at: nat, n: nat): (r: Result<(), Error>)
    requires at <= |b|
    ensures r.Ok? <==> at + n <= |b|
  {
    if |b| - at < n then Err(Short(ByteIO.UnexpectedEndOfStream(n, |b| - at))) else Ok(())
  }

  function ReadU8(b: seq<byte>, at: nat): (r: Result<byte, Error>)
    requires at <= |b|
    ensures r.Ok? <==> at < |b|
    ensures r.Ok? ==> r.value == b[at]
  {
    var _ :- Need(b, at, 1);
    Ok(b[at])
  }

  function ReadU16(b: seq<byte>, at: nat): (r: Result<uint16, Error>)
    requires at <= |b|
    ensures r.Ok? <==> at + 2 <= |b|
    ensures r.Ok? ==> r.value == GetU16LE(b, at)
  {
    var _ :- Need(b, at, 2);
    Ok(GetU16LE(b, at))
  }

  function ReadU32(b: seq<byte>, at: nat): (r: Result<uint32, Error>)
    requires at <= |b|
    ensures r.Ok? <==> at + 4 <= |b|
    ensures r.Ok? ==> r.value == GetU32LE(b, at)
  {
    var _ :- Need(b, at, 4);
    Ok(GetU32LE(b, at))
  }

  function ReadName(b: seq<byte>, utf8: ByteIO.Utf8): (r: Result<Name, Error>)
    ensures r.Ok? ==> |b| >= 1 && |r.value| == b[0] && 1 + |r.value| <= |b| && r.value == b[1..1 + |r.value|]
  {
    match ByteIO.PrefixedString(b, 1, utf8)
    case Ok(name) => Ok(name)
    case Err(e) => Err(Short(e))
  }

  /** A command and how many bytes it took. */
  type Step = (Command, nat)

  function Took(c: Command, n: nat): Result<Option<Step>, Error> { Ok(Some((c, n))) }

  /** The opcodes whose body is one byte. */
  predicate OneByte(op: byte) {
    op in {0x07, 0x0A, 0x0B, 0x0C, 0x0D, 0x0E, 0x10, 0x23, 0x25, 0x28}
  }

  function OneByteCommand(op: byte, raw: byte): Command
    requires OneByte(op)
  {
    if op == 0x07 then Rotate(Signed(raw))
    else if op == 0x0A then SetStabilization(raw != 0)
    else if op == 0x0B then SetFlash(raw != 0)
    else if op == 0x0C then SetFocusMode(ToFocusMode(raw))
    else if op == 0x0D then SetCodec(raw != 0)
    else if op == 0x0E then SetFps(raw)
    else if op == 0x10 then Flip(raw == 1)
    else if op == 0x23 then SetStudioMode(raw != 0)
    else if op == 0x25 then SetStabilizationMode(ToStabilizationMode(raw))
    else SetMicrophone(raw != 0)
  }

  /** The opcodes whose body is one float, or the bits of one. */
  predicate OneWord(op: byte) { op in {0x0F, 0x20, 0x24, 0x26} }

  function OneWordCommand(op: byte, bits: uint32): Command
    requires OneWord(op)
  {
    if op == 0x0F then SetZoom(bits)
    else if op == 0x20 then SetLensZoom(bits)
    else if op == 0x24 then SetExposureCompensation(bits)
    else SetFocusLock(if bits == 0xFFFF_FFFF then None else Some(bits))
  }

  predicate TwoWords(op: byte) { op in {0x21, 0x22, 0x27} }

  function TwoWordCommand(op: byte, x: uint32, y: uint32): Command
    requires TwoWords(op)
  {
    if op == 0x21 then SetExposure(x, y) else if op == 0x22 then SetWhiteBalance(x, y) else TapToFocus(x, y)
  }

  predicate NoBody(op: byte) { op in {0x03, 0x29, 0x2A} }

  function NoBodyCommand(op: byte): Command
    requires NoBody(op)
  {
    if op == 0x03 then SwapCamera else if op == 0x29 then SnapshotRequest else ResetCameraToAuto
  }

  /** The head of the buffer as one command; None when the buffer is empty. */
  function DecodeOne(data: seq<byte>, utf8: ByteIO.Utf8): (r: Result<Option<Step>, Error>)
    ensures r.Ok? ==> (r.value.None? <==> data == [])
    ensures r.Ok? && r.value.Some? ==> 1 <= r.value.value.1 <= |data|
  {
    if data == [] then Ok(None) else
    var op, body := data[0], data[1..];
    if op == Activation.OPCODE then
      match Activation.Decode(body, utf8)
      case Ok(configuration) => Took(Activate(configuration), |data|)
      case Err(e) => Err(BadActivation(e))
    else if NoBody(op) then Took(NoBodyCommand(op), 1)
    else if OneByte(op) then
      var raw :- ReadU8(body, 0);
      Took(OneByteCommand(op, raw), 2)
    else if OneWord(op) then
      var bits :- ReadU32(body, 0);
      Took(OneWordCommand(op, bits), 5)
    else if TwoWords(op) then
      var x :- ReadU32(body, 0);
      var y :- ReadU32(body, 4);
      Took(TwoWordCommand(op, x, y), 9)
    else if op == 0x01 then
      var w :- ReadU16(body, 0);
      var h :- ReadU16(body, 2);
      Took(SetResolution(w, h), 5)
    else if op == 0x08 then
      var kbps :- ReadU16(body, 0);
      Took(SetBitrate(kbps), 3)
    else if op == 0x09 then
      var lo :- ReadU16(body, 0);
      var hi :- ReadU16(body, 2);
      Took(SetAdaptiveBitrate(lo, hi), 5)
    else if op == 0x2B then
      var on :- ReadU8(body, 0);
      var strength :- ReadU8(body, 1);
      Took(SetPortraitMode(on != 0, strength), 3)
    else if op == 0x05 then
      var name :- ReadName(body, utf8);
      var value :- ReadU8(body, 1 + |name|);
      Took(CorrectionFilter(name, value), 3 + |name|)
    else if op == 0x06 then
      var name :- ReadName(body, utf8);
      Took(EffectFilter(name), 2 + |name|)
    else Took(Unknown(op, body), |data|)
  }

  // ---------- one call, one command ----------

  function Word(lo: byte, hi: byte): uint16 { lo as int + 0x100 * hi }

  /** The command a call's packet carries, everything cut to the width of its field. */
  function Sent(c: Call): Command {
    match c
    case CallResolution(w, h) => SetResolution(w, h)
    case CallFps(fps) => SetFps(Low(fps))
    case CallBitrate(kbps) => SetBitrate(Word(Low(kbps), High(kbps)))
    case CallAdaptiveBitrate(lo, hi) => SetAdaptiveBitrate(Word(Low(lo), High(lo)), Word(Low(hi), High(hi)))
    case CallStabilization(on) => SetStabilization(on)
    case CallFlash(on) => SetFlash(on)
    case CallFocusMode(mode) => SetFocusMode(ToFocusMode(Low(mode)))
    case CallH265(on) => SetCodec(on)
    case CallSwapCamera => SwapCamera
    case CallRotate(degrees) => Rotate(Signed(Low(degrees)))
    case CallZoom(factor) => SetZoom(factor)
    case CallFlipHorizontally => Flip(true)
    case CallFlipVertically => Flip(false)
    case CallCorrectionFilter(name, value) => CorrectionFilter(name, Low(value))
    case CallEffectFilter(name) => EffectFilter(name)
    case CallLensZoom(factor) => SetLensZoom(factor)
    case CallExposure(duration, iso) => SetExposure(duration, iso)
    case CallWhiteBalance(temperature, tint) => SetWhiteBalance(temperature, tint)
    case CallStudioMode(on) => SetStudioMode(on)
    case CallExposureCompensation(bias) => SetExposureCompensation(bias)
    case CallStabilizationMode(mode) => SetStabilizationMode(ToStabilizationMode(Low(mode)))
    case CallFocusLock(position) =>
      SetFocusLock(if Negative(position) || position == 0xFFFF_FFFF then None else Some(position))
    case CallTapToFocus(x, y) => TapToFocus(x, y)
    case CallMicrophone(on) => SetMicrophone(on)
    case CallSnapshot => SnapshotRequest
    case CallResetCamera => ResetCameraToAuto
    case CallPortraitMode(on, strength) => SetPortraitMode(on, Low(strength))
  }

  /** What the caller asked for, in the phone's terms. */
  predicate Asks(c: Call, d: Command) {
    match c
    case CallResolution(w, h) => d == SetResolution(w, h)
    case CallFps(fps) => d.SetFps? && d.fps == fps
    case CallBitrate(kbps) => d.SetBitrate? && d.kbps == kbps
    case CallAdaptiveBitrate(lo, hi) => d.SetAdaptiveBitrate? && d.min == lo && d.max == hi
    case CallStabilization(on) => d == SetStabilization(on)
    case CallFlash(on) => d == SetFlash(on)
    case CallFocusMode(mode) => (mode == 0 && d == SetFocusMode(Auto)) || (mode == 1 && d == SetFocusMode(Manual))
    case CallH265(on) => d == SetCodec(on)
    case CallSwapCamera => d == SwapCamera
    case CallRotate(degrees) => d == Rotate(degrees)
    case CallZoom(factor) => d == SetZoom(factor)
    case CallFlipHorizontally => d == Flip(true)
    case CallFlipVertically => d == Flip(false)
    case CallCorrectionFilter(name, value) => d.CorrectionFilter? && d.name == name && d.value == value
    case CallEffectFilter(name) => d == EffectFilter(name)
    case CallLensZoom(factor) => d == SetLensZoom(factor)
    case CallExposure(duration, iso) => d == SetExposure(duration, iso)
    case CallWhiteBalance(temperature, tint) => d == SetWhiteBalance(temperature, tint)
    case CallStudioMode(on) => d == SetStudioMode(on)
    case CallExposureCompensation(bias) => d == SetExposureCompensation(bias)
    case CallStabilizationMode(mode) =>
      0 <= mode <= 3 && d == SetStabilizationMode([Off, Standard, Cinematic, CinematicExtended][mode])
    case CallFocusLock(position) =>
      d == SetFocusLock(if 0x8000_0001 <= position <= 0xFF80_0000 then None else Some(position))
    case CallTapToFocus(x, y) => d == TapToFocus(x, y)
    case CallMicrophone(on) => d == SetMicrophone(on)
    case CallSnapshot => d == SnapshotRequest
    case CallResetCamera => d == ResetCameraToAuto
    case CallPortraitMode(on, strength) => d.SetPortraitMode? && d.on == on && d.strength == strength
  }

  predicate Within(x: int, lo: int, hi: int) { lo <= x <= hi }

  /** The arguments fit their fields. */
  predicate InRange(c: Call) {
    match c
    case CallFps(fps) => Within(fps, 0, 0xFF)
    case CallBitrate(kbps) => Within(kbps, 0, 0xFFFF)
    case CallAdaptiveBitrate(lo, hi) => Within(lo, 0, 0xFFFF) && Within(hi, 0, 0xFFFF)
    case CallFocusMode(mode) => Within(mode, 0, 1)
    case CallRotate(degrees) => Within(degrees, -0x80, 0x7F)
    case CallCorrectionFilter(_, value) => Within(value, 0, 0xFF)
    case CallStabilizationMode(mode) => Within(mode, 0, 3)
    case CallFocusLock(position) => position != 0xFFFF_FFFF
    case CallPortraitMode(_, strength) => Within(strength, 0, 0xFF)
    case _ => true
  }

  /** The phone does what was asked exactly when the arguments fit their fields. */
  lemma AskedIffInRange(c: Call)
    ensures Asks(c, Sent(c)) <==> InRange(c)
  {
    hide Word, Low, High, Signed, ToFocusMode, ToStabilizationMode, Within;
    match c
    case CallFps(fps) => LowIff(fps);
    case CallBitrate(kbps) => WordIff(kbps);
    case CallAdaptiveBitrate(lo, hi) => WordIff(lo); WordIff(hi);
    case CallFocusMode(mode) => ModeIff(mode);
    case CallRotate(degrees) => LowIff(degrees);
    case CallCorrectionFilter(_, value) => LowIff(value);
    case CallStabilizationMode(mode) => ModeIff(mode);
    case CallPortraitMode(_, strength) => LowIff(strength);
    case _ =>
  }

  lemma LowIff(x: int)
    ensures Low(x) == x <==> Within(x, 0, 0xFF)
    ensures Signed(Low(x)) == x <==> Within(x, -0x80, 0x7F)
  {
  }

  lemma ModeIff(mode: int)
    ensures Within(mode, 0, 1) <==> mode == 0 || mode == 1
    ensures Within(mode, 0, 1) ==> ToFocusMode(Low(mode)) == [Auto, Manual][mode]
    ensures Within(mode, 0, 3) <==> 0 <= mode <= 3
    ensures Within(mode, 0, 3) ==>
      ToStabilizationMode(Low(mode)) == [Off, Standard, Cinematic, CinematicExtended][mode]
  {
  }

  lemma WordIff(x: int)
    ensures Word(Low(x), High(x)) == x <==> Within(x, 0, 0xFFFF)
  {
    assert x == x / 0x100 * 0x100 + x % 0x100;
    assert x / 0x100 == x / 0x100 / 0x100 * 0x100 + x / 0x100 % 0x100;
  }

  /** The filter names a packet can carry. */
  predicate Packable(c: Call, utf8: ByteIO.Utf8) {
    match c
    case CallCorrectionFilter(name, _) => |name| <= 0xFF && utf8(name)
    case CallEffectFilter(name) => |name| <= 0xFF && utf8(name)
    case _ => true
  }

  lemma NoBodyStep(op: byte, rest: seq<byte>, utf8: ByteIO.Utf8)
    requires NoBody(op)
    ensures DecodeOne([op] + rest, utf8) == Took(NoBodyCommand(op), 1)
  {
    hide NoBodyCommand, Activation.Decode;
  }

  lemma OneByteStep(op: byte, raw: byte, rest: seq<byte>, utf8: ByteIO.Utf8)
    requires OneByte(op)
    ensures DecodeOne([op, raw] + rest, utf8) == Took(OneByteCommand(op, raw), 2)
  {
    hide OneByteCommand, Activation.Decode;
  }

  lemma OneWordStep(op: byte, x: uint32, rest: seq<byte>, utf8: ByteIO.Utf8)
    requires OneWord(op)
    ensures DecodeOne([op] + U32LE(x) + rest, utf8) == Took(OneWordCommand(op, x), 5)
  {
    hide OneWordCommand, Activation.Decode, U32LE, GetU32LE;
    var data := [op] + U32LE(x) + rest;
    var b := data[1..];
    assert b[0..4] == data[1..5] == U32LE(x);
    ReadU32LE(b, 0, x);
  }

  lemma TwoWordStep(op: byte, x: uint32, y: uint32, rest: seq<byte>, utf8: ByteIO.Utf8)
    requires TwoWords(op)
    ensures DecodeOne([op] + U32LE(x) + U32LE(y) + rest, utf8) == Took(TwoWordCommand(op, x, y), 9)
  {
    hide TwoWordCommand, Activation.Decode, U32LE, GetU32LE;
    var data := [op] + U32LE(x) + U32LE(y) + rest;
    var b := data[1..];
    assert b[0..4] == data[1..5] == U32LE(x);
    assert b[4..8] == data[5..9] == U32LE(y);
    ReadU32LE(b, 0, x);
    ReadU32LE(b, 4, y);
  }

  lemma NameRead(op: byte, name: Name, rest: seq<byte>, utf8: ByteIO.Utf8)
    requires |name| <= 0xFF && utf8(name)
    ensures ReadName(([op, Low(|name|)] + name + rest)[1..], utf8) == Ok(name)
  {
    var b := ([op, Low(|name|)] + name + rest)[1..];
    assert b[0] == |name| && b[1..1 + |name|] == name;
  }

  predicate IsWordCall(c: Call) {
    c.CallZoom? || c.CallLensZoom? || c.CallExposureCompensation? || c.CallFocusLock?
  }
  predicate IsTwoWordCall(c: Call) { c.CallExposure? || c.CallWhiteBalance? || c.CallTapToFocus? }
  predicate IsFilterCall(c: Call) { c.CallCorrectionFilter? || c.CallEffectFilter? }

  lemma WordCallReadsBack(c: Call, rest: seq<byte>, utf8: ByteIO.Utf8)
    requires IsWordCall(c)
    ensures DecodeOne(Encode(c) + rest, utf8) == Took(Sent(c), |Encode(c)|)
  {
    hide U32LE, DecodeOne;
    match c
    case CallZoom(factor) => OneWordStep(0x0F, factor, rest, utf8);
    case CallLensZoom(factor) => OneWordStep(0x20, factor, rest, utf8);
    case CallExposureCompensation(bias) => OneWordStep(0x24, bias, rest, utf8);
    case CallFocusLock(position) =>
      Ones();
      OneWordStep(0x26, if Negative(position) then 0xFFFF_FFFF else position, rest, utf8);
      assert [0x26, 0xFF, 0xFF, 0xFF, 0xFF] == [0x26] + [0xFF, 0xFF, 0xFF, 0xFF];
  }

  lemma Ones()
    ensures U32LE(0xFFFF_FFFF) == [0xFF, 0xFF, 0xFF, 0xFF]
  {
  }

  lemma TwoWordCallReadsBack(c: Call, rest: seq<byte>, utf8: ByteIO.Utf8)
    requires IsTwoWordCall(c)
    ensures DecodeOne(Encode(c) + rest, utf8) == Took(Sent(c), |Encode(c)|)
  {
    hide U32LE, DecodeOne;
    match c
    case CallExposure(x, y) => TwoWordStep(0x21, x, y, rest, utf8);
    case CallWhiteBalance(x, y) => TwoWordStep(0x22, x, y, rest, utf8);
    case CallTapToFocus(x, y) => TwoWordStep(0x27, x, y, rest, utf8);
  }

  lemma FilterCallReadsBack(c: Call, rest: seq<byte>, utf8: ByteIO.Utf8)
    requires IsFilterCall(c) && Packable(c, utf8)
    ensures DecodeOne(Encode(c) + rest, utf8) == Took(Sent(c), |Encode(c)|)
  {
    hide Activation.Decode, ReadName;
    match c
    case CallCorrectionFilter(name, value) =>
      var more := [Low(value)] + rest;
      var data := Encode(c) + rest;
      assert data == [0x05, Low(|name|)] + name + more;
      assert data[1..][1 + |name|] == Low(value);
      NameRead(0x05, name, more, utf8);
    case CallEffectFilter(name) =>
      NameRead(0x06, name, rest, utf8);
  }

  predicate IsByteCall(c: Call) {
    || c.CallFps? || c.CallStabilization? || c.CallFlash? || c.CallFocusMode? || c.CallH265? || c.CallRotate?
    || c.CallFlipHorizontally? || c.CallFlipVertically? || c.CallStudioMode? || c.CallStabilizationMode?
    || c.CallMicrophone?
  }

  lemma ByteCallReadsBack(c: Call, rest: seq<byte>, utf8: ByteIO.Utf8)
    requires IsByteCall(c)
    ensures DecodeOne(Encode(c) + rest, utf8) == Took(Sent(c), |Encode(c)|)
  {
    hide DecodeOne, ToStabilizationMode, Signed, ToFocusMode, Low;
    var e := Encode(c);
    assert |e| == 2 && OneByte(e[0]);
    OneByteStep(e[0], e[1], rest, utf8);
    assert e == [e[0], e[1]];
  }

  lemma OtherCallReadsBack(c: Call, rest: seq<byte>, utf8: ByteIO.Utf8)
    requires !IsWordCall(c) && !IsTwoWordCall(c) && !IsFilterCall(c) && !IsByteCall(c)
    ensures DecodeOne(Encode(c) + rest, utf8) == Took(Sent(c), |Encode(c)|)
  {
    hide Activation.Decode, ReadName, Low, High;
    if c.CallSwapCamera? || c.CallSnapshot? || c.CallResetCamera? {
      NoBodyStep(Encode(c)[0], rest, utf8);
    } else {
      var data := Encode(c) + rest;
      assert forall i | 0 <= i < |Encode(c)| :: data[i] == Encode(c)[i];
    }
  }

  /** A packet at the head of a buffer is read as the command it carries, and nothing behind it. */
  lemma CallReadsBack(c: Call, rest: seq<byte>, utf8: ByteIO.Utf8)
    requires Packable(c, utf8)
    ensures DecodeOne(Encode(c) + rest, utf8) == Took(Sent(c), |Encode(c)|)
  {
    hide DecodeOne, Encode, Sent, Packable;
    if IsWordCall(c) { WordCallReadsBack(c, rest, utf8); }
    else if IsTwoWordCall(c) { TwoWordCallReadsBack(c, rest, utf8); }
    else if IsFilterCall(c) { FilterCallReadsBack(c, rest, utf8); }
    else if IsByteCall(c) { ByteCallReadsBack(c, rest, utf8); }
    else { OtherCallReadsBack(c, rest, utf8); }
  }
}
