/**
 The application: one command at a time, its context zeroed whenever the command changes, and
 the frames the device has authenticated.
 Source: src/context.c, src/commands/signtx/stx_handler.c,
 src/commands/attestinput/ainpt_handler.c, src/commands/signtx/operations/stx_op_p2pk.c.
 */
module Application {
  import opened Bytes
  import opened TxTypes
  import opened Reference
  import opened Frames
  import ErgoTree
  import A = Attestation
  import S = Signing
  import OI = OutputInfo

  /** The current command together with its context; the contexts share memory, so only one exists. */
  datatype Context = NoCommand | Signing(session: u8, op: S.Operation) | Attesting(a: A.AttestCtx) | OtherCommand

  /** `issued` are the frames handed out under the session key, with their codes. */
  datatype App = App(ctx: Context, screen: Screen, issued: set<(bytes, bytes)>)

  /** What the user is asked: consent to attest, to read that an output cannot be clear-signed, or to sign. */
  datatype Screen = NoScreen | Consent | BlindWarning | Review

  /** Data of an APDU: its length is one byte. */
  type ApduData = d: bytes | |d| <= 255

  /** What the device's surroundings contribute to one step: randomness, keys and the user. */
  datatype Surroundings = Surroundings(
    session: u8,               // a fresh session id
    commitment: bytes,         // what the hasher absorbed before the transaction
    accepted: bool,            // path, network, key derivation and the user's consent to a new session
    known: bool,               // the host application was approved before
    key: ErgoTree.RawPublicKey,// the public key of a change path
    keyFound: bool,
    screens: bool,             // confirmation screens could be shown and were not refused
    warns: bool,               // blind signing is off, on a device that warns at the output
    signed: bool)              // the signature arithmetic succeeded

  datatype Event =
    | SignApdu(sub: u8, p2: u8, data: ApduData, env: Surroundings)
    | AttestApdu(sub: u8, p2: u8, data: ApduData, env: Surroundings)
    | OtherApdu
    | UserAnswer(approved: bool, env: Surroundings)

  datatype Response =
    | Nothing
    | Success
    | SessionId(id: u8)
    | FrameCount(count: u8)
    | AttestedFrame(frame: bytes, code: bytes)
    | Signature(message: bytes)
    | Error(e: Error)

  datatype Step = Step(app: App, response: Response)

  /** app_init */
  function Booted(): App {
    App(NoCommand, NoScreen, {})
  }

  /** handler_err: the context is zeroed and no command is current any more. */
  function Abort(app: App, e: Error): Step {
    Step(app.(ctx := NoCommand, screen := NoScreen), Response.Error(e))
  }

  // ---------- signing subcommands ----------

  /** read_bip32_path */
  function ReadPath(data: bytes): Outcome<seq<u32>> {
    if |data| < 1 then Fail(BufferError)
    else if data[0] == 0 || data[0] > 10 || |data| < 1 + 4 * data[0] then Fail(BufferError)
    else Ok(seq(data[0], i requires 0 <= i < data[0] => U32(data[1 + 4 * i..5 + 4 * i])))
  }

  /** handle_init_p2pk: the parameters must be exactly a network, a path and, if announced, a token. */
  function InitParameters(data: bytes, hasToken: bool): Outcome<()> {
    if |data| < 1 then Fail(NotEnoughData)
    else
      match ReadPath(data[1..])
      case Fail(e) => Fail(e)
      case More(_) => Fail(BadState)
      case Ok(path) =>
        var size := 2 + 4 * |path| + (if hasToken then 4 else 0);
        if |data| < size then Fail(NotEnoughData) else if |data| > size then Fail(TooMuchData) else Ok(())
  }

  /** The ideal code: a frame is accepted exactly if the device issued it. */
  function ReadSignedFrame(issued: set<(bytes, bytes)>, data: bytes): Outcome<(Frame, u32)> {
    var n := DataLength(data);
    if n == 0 then Fail(NotEnoughData)
    else if (data[..n], data[n..n + SIGNATURE_LEN]) !in issued then Fail(BadFrameSignature)
    else ReadFrame(data)
  }

  function Exactly(data: bytes, size: nat): Outcome<()> {
    if |data| < size then Fail(NotEnoughData) else if |data| > size then Fail(TooMuchData) else Ok(())
  }

  /** The parameters of a subcommand, read from the APDU. */
  function ReadCommand(issued: set<(bytes, bytes)>, sub: u8, data: bytes, env: Surroundings): Outcome<S.Command> {
    match sub
    case 0x10 =>
      var l := Exactly(data, 7);
      if l.Fail? then Fail(l.e)
      else Ok(S.StartTx(U16(data[..2]), U16(data[2..4]), data[4], U16(data[5..7])))
    case 0x11 => Ok(S.TokenIds(data))
    case 0x12 =>
      var f := ReadSignedFrame(issued, data);
      if f.Ok? then Ok(S.InputFrame(f.s.0, f.s.1)) else if f.Fail? then Fail(f.e) else Fail(BadState)
    case 0x13 => Ok(S.Extension(data))
    case 0x14 => Ok(S.DataInputs(data))
    case 0x15 =>
      var l := Exactly(data, 21);
      if l.Fail? then Fail(l.e)
      else Ok(S.NewOutputBox(U64(data[..8]), U32(data[8..12]), U32(data[12..16]), data[16], U32(data[17..21])))
    case 0x16 => Ok(S.TreeChunk(data))
    case 0x17 => if |data| > 0 then Fail(TooMuchData) else Ok(S.FeeTree)
    case 0x18 =>
      var p := ReadPath(data);
      if p.Fail? then Fail(p.e) else if !env.keyFound then Fail(BadParameters) else Ok(S.ChangeTree(p.s, env.key))
    case 0x19 => Ok(S.OutputTokens(data))
    case 0x1A => Ok(S.Registers(data))
    case 0x20 => Ok(S.Confirm)
    case _ => Fail(BadSubcommand)
  }

  /** Every context the handlers can meet is one the operation is defined on. */
  predicate Safe(app: App) {
    app.ctx.Signing? ==> S.Coupled(app.ctx.op)
  }

  /** A subcommand of a running session. */
  function RunSubcommand(app: App, sub: u8, data: bytes, env: Surroundings): Step
    requires Safe(app) && app.ctx.Signing?
  {
    match ReadCommand(app.issued, sub, data, env)
    case Fail(e) => Abort(app, e)
    case More(_) => Abort(app, BadState)
    case Ok(c) =>
      match S.Exec(app.ctx.op, c)
      case Fail(e) => Abort(app, e)
      case More(_) => Abort(app, BadState)
      case Ok(op) =>
        if !env.screens && (0x16 <= sub <= 0x1A || sub == 0x20) then Abort(app, Denied)
        else
          var screen := ScreenAfter(sub, op, env);
          Step(app.(ctx := Signing(app.ctx.session, op), screen := screen),
               if screen == NoScreen then Success else Nothing)
  }

  /** The confirmation waits for the user, and so does the warning that an output cannot be clear-signed. */
  function ScreenAfter(sub: u8, op: S.Operation, env: Surroundings): Screen {
    if sub == 0x20 then Review
    else if 0x16 <= sub <= 0x1A && env.warns && OI.Blind(op.w.output) then BlindWarning
    else NoScreen
  }

  predicate IsBusy(app: App) {
    app.screen != NoScreen
  }

  function IsSubcommand(sub: u8): bool {
    0x10 <= sub <= 0x1A || sub == 0x20
  }

  /** handler_sign_transaction */
  function HandleSign(app: App, sub: u8, p2: u8, data: bytes, env: Surroundings): Step
    requires Safe(app)
  {
    if IsBusy(app) then Step(app, Response.Error(Busy))
    else if sub == 0x01 then
      if p2 != 0x01 && p2 != 0x02 then Step(app, Response.Error(BadParameters))
      else
        var l := InitParameters(data, p2 == 0x02);
        if l.Fail? then Abort(app, l.e)
        else if !env.accepted then Abort(app, Denied)
        else Step(app.(ctx := Signing(env.session, S.Start(env.commitment))), SessionId(env.session))
    else if !IsSubcommand(sub) then Abort(app, BadSubcommand)
    else if !app.ctx.Signing? then Abort(app, BadState)
    else if p2 != app.ctx.session then Abort(app, BadSession)
    else RunSubcommand(app, sub, data, env)
  }

  // ---------- attestation subcommands ----------

  function AnswerOf(a: A.Answer): Response {
    match a
    case Plain => Success
    case Count(n) => FrameCount(n)
    case Attested(f, c) => AttestedFrame(f, c)
  }

  /** A frame handed out joins the issued ones. */
  function EndAttest(app: App, o: Outcome<(A.AttestCtx, A.Answer)>): Step {
    match o
    case Fail(e) => Abort(app, e)
    case More(_) => Abort(app, BadState)
    case Ok((c, answer)) =>
      var issued := if answer.Attested? then app.issued + {(answer.frame, answer.code)} else app.issued;
      Step(app.(ctx := Attesting(c), issued := issued), AnswerOf(answer))
  }

  function RunAttest(dev: A.Device, app: App, sub: u8, data: bytes): Step
    requires app.ctx.Attesting?
  {
    match sub
    case 0x02 => EndAttest(app, A.TreeChunk(dev, app.ctx.a, data))
    case 0x03 => EndAttest(app, A.Tokens(dev, app.ctx.a, data))
    case 0x04 => EndAttest(app, A.Registers(dev, app.ctx.a, data))
    case _ => EndAttest(app, A.GetFrame(dev, app.ctx.a, data))
  }

  /** handler_attest_input */
  function HandleAttest(dev: A.Device, app: App, sub: u8, p2: u8, data: bytes, env: Surroundings): Step {
    if IsBusy(app) then Step(app, Response.Error(Busy))
    else if sub == 0x01 then
      if p2 != 0x01 && p2 != 0x02 then Abort(app, BadParameters)
      else
        match A.Init(data, p2 == 0x02, env.session)
        case Fail(e) => Abort(app, e)
        case More(_) => Abort(app, BadState)
        case Ok(c) =>
          if env.known then Step(app.(ctx := Attesting(c.(state := A.AttestApproved))), SessionId(c.session))
          else Step(app.(ctx := Attesting(c), screen := Consent), Nothing)
    else if sub < 0x02 || sub > 0x05 then Abort(app, BadSubcommand)
    else if !app.ctx.Attesting? then Abort(app, BadState)
    else if p2 != app.ctx.a.session then Abort(app, BadSession)
    else RunAttest(dev, app, sub, data)
  }

  // ---------- the user ----------

  /**
   The answer to the screen that is shown: the guard of ui_stx_operation_p2pk_send_response, or
   consent to attest.  Either answer to the warning is a refusal that leaves the session as it is.
   */
  function HandleAnswer(app: App, approved: bool, env: Surroundings): Step {
    if !IsBusy(app) then Step(app, Nothing)
    else
      match app.ctx
      case Signing(_, op) =>
        if app.screen == BlindWarning then Step(app.(screen := NoScreen), Response.Error(Denied))
        else if !approved then Abort(app, Denied)
        else if op.state != S.Finalized then Abort(app, BadState)
        else if !env.signed then Abort(app, BadState)
        else Step(app.(ctx := NoCommand, screen := NoScreen), Signature(op.w.log))
      case Attesting(a) =>
        if !approved then Abort(app, Denied)
        else Step(app.(ctx := Attesting(a.(state := A.AttestApproved)), screen := NoScreen), SessionId(a.session))
      case NoCommand => Abort(app, Denied)
      case OtherCommand => Abort(app, Denied)
  }

  /** One event. */
  function Next(dev: A.Device, app: App, e: Event): Step
    requires Safe(app)
  {
    match e
    case SignApdu(sub, p2, data, env) => HandleSign(app, sub, p2, data, env)
    case AttestApdu(sub, p2, data, env) => HandleAttest(dev, app, sub, p2, data, env)
    case OtherApdu => if IsBusy(app) then Step(app, Response.Error(Busy)) else Step(app.(ctx := OtherCommand), Nothing)
    case UserAnswer(approved, env) => HandleAnswer(app, approved, env)
  }
}
