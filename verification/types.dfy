/** The data of the spend guard (src/types.rs): bounded integers, the policy an
    admin installs, authorization contexts, rolling-window entries and errors. */
module Types {

  const U64_MAX: int := 0xFFFF_FFFF_FFFF_FFFF
  const U32_MAX: int := 0xFFFF_FFFF
  const I128_MAX: int := 0x7FFF_FFFF_FFFF_FFFF_FFFF_FFFF_FFFF_FFFF
  const I128_MIN: int := -0x8000_0000_0000_0000_0000_0000_0000_0000

  type u64 = x: int | 0 <= x <= U64_MAX
  type u32 = x: int | 0 <= x <= U32_MAX
  type i128 = x: int | I128_MIN <= x <= I128_MAX

  const MAX_WINDOW_ENTRIES: nat := 8192
  const MAX_AUTH_CONTEXTS: nat := 64
  const MAX_POLICY_ASSETS: nat := 256
  const MAX_POLICY_PROTOCOLS: nat := 256
  const MAX_RECIPIENT_ENTRIES: nat := 256
  const MAX_ASSET_CAP_ENTRIES: nat := 256
  const MAX_WINDOW_SECS: u64 := 315_360_000
  const MAX_DMS_GRACE_SECS: u64 := MAX_WINDOW_SECS
  const DMS_WARN_THRESHOLD_PERCENT: u64 := 80

  /** An account or contract address: only equality matters. */
  datatype Address = Address(id: nat)

  type Symbol = string

  datatype Option<+T> = None | Some(value: T)

  datatype Error =
    | AlreadyInitialized | NotInitialized | InvalidConfig | InvalidAmount | NoPendingAdmin
    | AdminFrozen | HeartbeatExpired | NoPolicy | Paused | OutsideActiveWindow
    | AssetNotAllowed | RecipientNotAllowed | PerTxCapExceeded | WindowCapExceeded
    | ProtocolNotAllowed | FunctionNotAllowed | AssetFnNotAllowed | UnknownContract
    | SelfFunctionNotAllowed | CreateContractNotAllowed | RecipientBlocked
    | ProtocolCallRateExceeded | DecisionInvariantViolation | TooManyAuthContexts

  // ---- Rolling-window data ----

  /** One entry of a rolling window. Spend entries carry an `i128` amount and
      protocol-call entries a `u32` count; the two windows differ only in the
      ceiling at which their arithmetic saturates, so they share this type. */
  datatype Entry = Entry(ts: u64, amount: int)

  /** A rolling window: entries oldest first, and their cached total. */
  datatype Window = Window(total: int, entries: seq<Entry>)

  datatype RecipientWindow = RecipientWindow(recipient: Address, window: Window)

  /** What `DataKey::Window` stores. The protocol-call total is not stored. */
  datatype WindowState = WindowState(
    spend: Window,
    recipients: seq<RecipientWindow>,
    callEntries: seq<Entry>)

  // ---- Policy ----

  datatype RecipientCap = RecipientCap(recipient: Address, cap: i128)

  datatype AssetCap = AssetCap(asset: Address, perTxCap: i128, paused: bool)

  datatype ProtocolRule = ProtocolRule(contract: Address, fns: Option<seq<Symbol>>, paused: bool)

  datatype PolicyConfig = PolicyConfig(
    perTxCap: i128,
    windowSecs: u64,
    windowCap: i128,
    assets: seq<Address>,
    protocols: seq<ProtocolRule>,
    recipients: seq<Address>,
    recipientWindowCaps: seq<RecipientCap>,
    blockedRecipients: seq<Address>,
    assetCaps: seq<AssetCap>,
    allowAnyRecipient: bool,
    activeFrom: u64,
    activeUntil: u64,
    paused: bool,
    dmsGraceSecs: u64,
    protocolCallsPerWindow: u32)

  // ---- Authorization contexts and verdicts ----

  /** A host value as far as the engine can tell: an address, an `i128`, or neither. */
  datatype Val = AddressVal(address: Address) | I128Val(amount: i128) | OtherVal

  datatype Context =
    | Contract(contract: Address, fnName: Symbol, args: seq<Val>)
    | CreateContractHostFn
    | CreateContractWithCtorHostFn

  datatype ParsedCall =
    | AssetTransfer(asset: Address, to: Address, amount: i128)
    | AssetOther(asset: Address, fname: Symbol)
    | Protocol(contract: Address, fname: Symbol)
    | SelfCall(fname: Symbol)
    | CreateContract
    | Unknown(contract: Address, fname: Symbol)

  datatype Decision = Allowed | Blocked(error: Error)

  datatype AccountState = AccountState(adminFrozen: bool, lastHeartbeat: u64)

  // ---- Arithmetic at the machine bounds ----

  /** The bounds are those of the integer types. */
  lemma MachineBounds()
    ensures U32_MAX + 1 == 65536 * 65536 && U64_MAX + 1 == (U32_MAX + 1) * (U32_MAX + 1)
    ensures -I128_MIN == I128_MAX + 1 && 2 * (I128_MAX + 1) == (U64_MAX + 1) * (U64_MAX + 1)
  {
  }

  /** Saturating addition of non-negative quantities at `ceiling`. */
  function SatAdd(a: int, b: int, ceiling: int): int {
    if a + b > ceiling then ceiling else a + b
  }

  /** Saturating subtraction of `u64` or `u32` values. */
  function SatSub(a: int, b: int): int {
    if a < b then 0 else a - b
  }

  /** `i128::saturating_sub`. */
  function SatSubI128(a: int, b: int): int {
    if a - b < I128_MIN then I128_MIN else if a - b > I128_MAX then I128_MAX else a - b
  }

  /** `i128::checked_add`. */
  function CheckedAdd(a: int, b: int): Option<int> {
    if I128_MIN <= a + b <= I128_MAX then Some(a + b) else None
  }
}
