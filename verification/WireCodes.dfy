/** The enumerations of the protocol and their numeric codes on the wire. */
module WireCodes {
  import opened Bytes

  datatype Option<+T> = None | Some(value: T)

  datatype PduType =
    | Request | Ping | Response | Fault | Working | NoCall | Reject | Ack | ClCancel | Fack
    | CancelAck | Bind | BindAck | BindNak | AlterContext | AlterContextResponse | Auth3
    | Shutdown | CoCancel | Orphaned

  /** The PDU types in the order of their codes. */
  const PDU_TYPES: seq<PduType> :=
    [Request, Ping, Response, Fault, Working, NoCall, Reject, Ack, ClCancel, Fack,
     CancelAck, Bind, BindAck, BindNak, AlterContext, AlterContextResponse, Auth3,
     Shutdown, CoCancel, Orphaned]

  function PduTypeCode(t: PduType): byte {
    match t
    case Request => 0x00
    case Ping => 0x01
    case Response => 0x02
    case Fault => 0x03
    case Working => 0x04
    case NoCall => 0x05
    case Reject => 0x06
    case Ack => 0x07
    case ClCancel => 0x08
    case Fack => 0x09
    case CancelAck => 0x0A
    case Bind => 0x0B
    case BindAck => 0x0C
    case BindNak => 0x0D
    case AlterContext => 0x0E
    case AlterContextResponse => 0x0F
    case Auth3 => 0x10
    case Shutdown => 0x11
    case CoCancel => 0x12
    case Orphaned => 0x13
  }

  function PduTypeOf(code: byte): Option<PduType> {
    if code < |PDU_TYPES| then Some(PDU_TYPES[code]) else None
  }

  lemma PduTypeCodes(t: PduType, code: byte)
    ensures PduTypeOf(code) == Some(t) <==> PduTypeCode(t) == code
  {
  }

  datatype AuthLevel = LevelNone | Connect | PacketIntegrity | PacketPrivacy

  function AuthLevelCode(level: AuthLevel): byte {
    match level
    case LevelNone => 0
    case Connect => 2
    case PacketIntegrity => 5
    case PacketPrivacy => 6
  }

  function AuthLevelOf(code: byte): Option<AuthLevel> {
    match code
    case 0 => Some(LevelNone)
    case 2 => Some(Connect)
    case 5 => Some(PacketIntegrity)
    case 6 => Some(PacketPrivacy)
    case _ => None
  }

  datatype AuthType = TypeNone | GssNegotiate | WinNt | GssKerberos

  function AuthTypeCode(t: AuthType): byte {
    match t
    case TypeNone => 0
    case GssNegotiate => 9
    case WinNt => 10
    case GssKerberos => 16
  }

  function AuthTypeOf(code: byte): Option<AuthType> {
    match code
    case 0 => Some(TypeNone)
    case 9 => Some(GssNegotiate)
    case 10 => Some(WinNt)
    case 16 => Some(GssKerberos)
    case _ => None
  }

  datatype RejectReason =
    | ReasonNotSpecified
    | AbstractSyntaxNotSupported
    | ProposedTransferSyntaxNotSupported
    | LocalLimitExceeded
    | ProtocolVersionNotSpecified
    | AuthenticationTypeNotRecognized
    | InvalidChecksum

  function RejectReasonOf(code: u16): Option<RejectReason> {
    match code
    case 0 => Some(ReasonNotSpecified)
    case 1 => Some(AbstractSyntaxNotSupported)
    case 2 => Some(ProposedTransferSyntaxNotSupported)
    case 3 => Some(LocalLimitExceeded)
    case 4 => Some(ProtocolVersionNotSpecified)
    case 8 => Some(AuthenticationTypeNotRecognized)
    case 9 => Some(InvalidChecksum)
    case _ => None
  }

  datatype ResultCode = Acceptance | UserRejection | ProviderRejection | NegotiateAck

  function ResultCodeOf(code: u16): Option<ResultCode> {
    match code
    case 0 => Some(Acceptance)
    case 1 => Some(UserRejection)
    case 2 => Some(ProviderRejection)
    case 3 => Some(NegotiateAck)
    case _ => None
  }

  function ResultCodeValue(code: ResultCode): u16 {
    match code
    case Acceptance => 0
    case UserRejection => 1
    case ProviderRejection => 2
    case NegotiateAck => 3
  }

  datatype ContextReason = NoReason | AbstractSyntaxUnknown | TransferSyntaxesUnknown | LocalLimit

  function ContextReasonOf(code: u16): Option<ContextReason> {
    match code
    case 0 => Some(NoReason)
    case 1 => Some(AbstractSyntaxUnknown)
    case 2 => Some(TransferSyntaxesUnknown)
    case 3 => Some(LocalLimit)
    case _ => None
  }

  function ContextReasonValue(reason: ContextReason): u16 {
    match reason
    case NoReason => 0
    case AbstractSyntaxUnknown => 1
    case TransferSyntaxesUnknown => 2
    case LocalLimit => 3
  }
}
