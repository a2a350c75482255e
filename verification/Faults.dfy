/** The fault message format of the pinned AArch64 kernel (fault.rs). */
module Faults {
  import opened Machine

  datatype CapabilityLookupFailure =
    | InvalidRoot
    | MissingCapability(bitsLeft: usize)
    | DepthMismatch(bitsLeft: usize, bitsFound: usize)
    | GuardMismatch(bitsLeft: usize, guardFound: usize, bitsFound: usize)

  datatype Fault =
    | CapabilityFault(instructionPointer: usize, capabilityAddress: usize, inReceivePhase: bool,
                      lookupFailure: CapabilityLookupFailure)
    | UnknownSyscall(argumentRegisters: seq<usize>, instructionPointer: usize, stackPointer: usize,
                     linkRegister: usize, statusRegister: usize, syscallNumber: usize)
    | VmFault(instructionPointer: usize, address: usize, instructionFault: bool, syndrome: usize)
  {
    predicate Valid() {
      UnknownSyscall? ==> |argumentRegisters| == 8
    }
  }

  datatype FaultDecodeError =
    | UnsupportedLabel(tag: usize)
    | UnexpectedLength(tag: usize, expected: nat, actual: nat)
    | InvalidBoolean(tag: usize, index: nat, value: usize)
    | InvalidLookupFailureType(kind: usize)

  const CAPABILITY_FAULT: usize := 1
  const UNKNOWN_SYSCALL: usize := 2
  const VM_FAULT: usize := 5

  function ExpectLength(tag: usize, registers: seq<usize>, expected: nat): Result<(), FaultDecodeError> {
    if |registers| != expected then Err(UnexpectedLength(tag, expected, |registers|)) else Ok(())
  }

  function DecodeBoolean(tag: usize, index: nat, value: usize): Result<bool, FaultDecodeError> {
    if value == 0 then Ok(false)
    else if value == 1 then Ok(true)
    else Err(InvalidBoolean(tag, index, value))
  }

  function DecodeVmFault(registers: seq<usize>): Result<Fault, FaultDecodeError> {
    var _ :- ExpectLength(VM_FAULT, registers, 4);
    var instructionFault :- DecodeBoolean(VM_FAULT, 2, registers[2]);
    Ok(VmFault(registers[0], registers[1], instructionFault, registers[3]))
  }

  function DecodeUnknownSyscall(registers: seq<usize>): Result<Fault, FaultDecodeError> {
    var _ :- ExpectLength(UNKNOWN_SYSCALL, registers, 13);
    Ok(UnknownSyscall(registers[..8], registers[8], registers[9], registers[10], registers[11], registers[12]))
  }

  function DecodeLookupFailure(registers: seq<usize>): Result<CapabilityLookupFailure, FaultDecodeError>
    requires |registers| >= 4
  {
    if registers[3] == 1 then
      var _ :- ExpectLength(CAPABILITY_FAULT, registers, 4);
      Ok(InvalidRoot)
    else if registers[3] == 2 then
      var _ :- ExpectLength(CAPABILITY_FAULT, registers, 5);
      Ok(MissingCapability(registers[4]))
    else if registers[3] == 3 then
      var _ :- ExpectLength(CAPABILITY_FAULT, registers, 6);
      Ok(DepthMismatch(registers[4], registers[5]))
    else if registers[3] == 4 then
      var _ :- ExpectLength(CAPABILITY_FAULT, registers, 7);
      Ok(GuardMismatch(registers[4], registers[5], registers[6]))
    else Err(InvalidLookupFailureType(registers[3]))
  }

  function DecodeCapabilityFault(registers: seq<usize>): Result<Fault, FaultDecodeError> {
    if |registers| < 4 then Err(UnexpectedLength(CAPABILITY_FAULT, 4, |registers|))
    else
      var lookupFailure :- DecodeLookupFailure(registers);
      var inReceivePhase :- DecodeBoolean(CAPABILITY_FAULT, 2, registers[2]);
      Ok(CapabilityFault(registers[0], registers[1], inReceivePhase, lookupFailure))
  }

  function Decode(tag: usize, registers: seq<usize>): Result<Fault, FaultDecodeError> {
    if tag == CAPABILITY_FAULT then DecodeCapabilityFault(registers)
    else if tag == UNKNOWN_SYSCALL then DecodeUnknownSyscall(registers)
    else if tag == VM_FAULT then DecodeVmFault(registers)
    else Err(UnsupportedLabel(tag))
  }

  // The message that the kernel sends for a fault, written down independently: the fixed part
  // of each class, and for a capability fault the lookup type and its own words.
  function Flag(b: bool): usize {
    if b then 1 else 0
  }

  function EncodeLookupFailure(failure: CapabilityLookupFailure): seq<usize> {
    match failure
    case InvalidRoot => [1]
    case MissingCapability(bitsLeft) => [2, bitsLeft]
    case DepthMismatch(bitsLeft, bitsFound) => [3, bitsLeft, bitsFound]
    case GuardMismatch(bitsLeft, guardFound, bitsFound) => [4, bitsLeft, guardFound, bitsFound]
  }

  function Encode(fault: Fault): (usize, seq<usize>) {
    match fault
    case CapabilityFault(ip, address, receiving, failure) =>
      (1, [ip, address, Flag(receiving)] + EncodeLookupFailure(failure))
    case UnknownSyscall(arguments, ip, sp, lr, status, number) =>
      (2, arguments + [ip, sp, lr, status, number])
    case VmFault(ip, address, instructionFault, syndrome) =>
      (5, [ip, address, Flag(instructionFault), syndrome])
  }

  // Every fault is read back from its message.
  lemma DecodeAfterEncode(fault: Fault)
    requires fault.Valid()
    ensures Decode(Encode(fault).0, Encode(fault).1) == Ok(fault)
  {
    match fault
    case CapabilityFault(ip, address, receiving, failure) =>
      var registers := Encode(fault).1;
      assert registers[..3] == [ip, address, Flag(receiving)];
      assert registers[3..] == EncodeLookupFailure(failure);
      assert forall i :: 0 <= i < |registers| - 3 ==> registers[3 + i] == EncodeLookupFailure(failure)[i];
    case UnknownSyscall(arguments, _, _, _, _, _) =>
      assert Encode(fault).1[..8] == arguments;
    case VmFault(_, _, _, _) =>
  }

  // Whatever decodes is the message of the fault it decodes to: no two messages share a fault,
  // and no message that the kernel could not send is accepted.
  lemma EncodeAfterDecode(tag: usize, registers: seq<usize>)
    requires Decode(tag, registers).Ok?
    ensures Decode(tag, registers).value.Valid()
    ensures Encode(Decode(tag, registers).value) == (tag, registers)
  {
    var fault := Decode(tag, registers).value;
    match fault
    case CapabilityFault(ip, address, receiving, failure) =>
      assert EncodeLookupFailure(failure) == registers[3..];
      assert [ip, address, Flag(receiving)] == registers[..3];
      assert registers == registers[..3] + registers[3..];
    case UnknownSyscall(_, _, _, _, _, _) =>
      assert registers[8..] == [registers[8], registers[9], registers[10], registers[11], registers[12]];
      assert registers == registers[..8] + registers[8..];
    case VmFault(_, _, _, _) =>
      assert registers == [registers[0], registers[1], registers[2], registers[3]];
  }

  // So decoding and the kernel's format are one bijection.
  lemma DecodingIsExact(tag: usize, registers: seq<usize>, fault: Fault)
    ensures Decode(tag, registers) == Ok(fault) <==> fault.Valid() && Encode(fault) == (tag, registers)
  {
    if Decode(tag, registers) == Ok(fault) {
      EncodeAfterDecode(tag, registers);
    }
    if fault.Valid() {
      DecodeAfterEncode(fault);
    }
  }

  // How many registers each lookup type needs.
  function LookupLength(kind: usize): Option<nat> {
    if 1 <= kind <= 4 then Some(3 + kind) else None
  }

  // Every other message is refused for its first defect: the class, then the length as far as
  // it is known, then the lookup type and the length it asks for, and the boolean last.
  lemma RefusalsNameTheFirstDefect(tag: usize, registers: seq<usize>)
    requires Decode(tag, registers).Err?
    ensures var error, n := Decode(tag, registers).error, |registers|;
            if tag !in {1, 2, 5} then error == UnsupportedLabel(tag)
            else if tag == 2 then n != 13 && error == UnexpectedLength(tag, 13, n)
            else if tag == 5 then
              if n != 4 then error == UnexpectedLength(tag, 4, n)
              else registers[2] > 1 && error == InvalidBoolean(tag, 2, registers[2])
            else if n < 4 then error == UnexpectedLength(tag, 4, n)
            else if LookupLength(registers[3]) == None then error == InvalidLookupFailureType(registers[3])
            else if LookupLength(registers[3]) != Some(n)
            then error == UnexpectedLength(tag, LookupLength(registers[3]).value, n)
            else registers[2] > 1 && error == InvalidBoolean(tag, 2, registers[2])
  {
  }
}
