/**
 The attestation session and the application's global context as objects, and whole runs of
 them.  Source: src/commands/attestinput/ainpt_handler.c,
 src/commands/attestinput/ainpt_response.c, src/commands/signtx/stx_handler.c, src/context.c.
 */
module AppContext {
  import opened Bytes
  import opened Gve
  import opened TxTypes
  import opened Contexts
  import opened SerializerContexts
  import opened SessionContexts
  import opened Frames
  import opened Application
  import BS = BoxSerializer
  import A = Attestation
  import S = Signing
  import R = Runs
  import T = Theorems

  /** attest_input_ctx_t */
  class AttestContext {
    const hash: Hasher
    const tokens: AttestedTokens
    const box: BoxContext
    var state: A.AttestState
    var session: u8
    var id: bytes
    var boxIndex: u16

    ghost predicate Valid()
      reads this, tokens, tokens.table
    {
      tokens.Valid() && box.hash == hash && box.l == ToAttester(tokens)
    }

    ghost function Owned(): set<object> {
      {this, hash, tokens, tokens.table, box}
    }

    ghost function View(): A.AttestCtx
      requires Valid()
      reads this, hash, tokens, tokens.table, box
    {
      A.AttestCtx(state, session, id, boxIndex, tokens.View(), box.Ctx(), hash.log)
    }

    constructor ()
      ensures Valid() && fresh(Owned())
    {
      var h := new Hasher([]);
      var t := new AttestedTokens();
      hash, tokens := h, t;
      box := new BoxContext(h, ToAttester(t));
      state, session, id, boxIndex := A.AttestInitialized, 0, [], 0;
    }

    /** handle_init, up to the question to the user */
    method Init(data: bytes, hasToken: bool, newSession: u8) returns (c: Code)
      requires Valid()
      modifies Owned()
      ensures Valid() && Agrees(A.Init(data, hasToken, newSession), c, View()) && c != MoreData
      ensures c == Done ==> state == A.AttestInitialized && session == newSession
    {
      var size := if hasToken then 59 else 55;
      if |data| < size {
        return Err(NotEnoughData);
      }
      if |data| > size {
        return Err(TooMuchData);
      }
      id, boxIndex := data[..32], U16(data[32..34]);
      tokens.Clear();
      hash.log := [];
      c := box.Init(U64(data[34..42]), U32(data[42..46]), U32(data[46..50]), data[50], U32(data[51..55]));
      if c.Err? {
        return;
      }
      state, session := A.AttestInitialized, newSession;
    }

    /** check_box_finished and ergo_tx_serializer_box_id_hash */
    method CheckFinished(dev: A.Device) returns (answer: A.Answer)
      requires Valid()
      modifies Owned()
      ensures Valid() && A.CheckFinished(dev, old(View())) == Ok((View(), answer))
    {
      if box.state != BS.BoxFinished {
        return A.Plain;
      }
      hash.Update(id);
      hash.Update(Vlq(boxIndex));
      id := dev.hash(hash.log);
      box.state := BS.HashFinalized;
      state := A.AttestFinished;
      return A.Count(FramesCount(tokens.table.count));
    }

    /** CHECK_CALL_BOX_FINISHED */
    method EndStep(dev: A.Device, r: Code, ghost c0: A.AttestCtx, ghost o: Outcome<BS.Run>)
        returns (c: Code, answer: A.Answer)
      requires Valid() && Agrees(o, r, box.View()) && (!r.Err? ==> View() == A.After(c0, box.View()))
      modifies Owned()
      ensures Valid() && Agrees(A.EndStep(dev, c0, o), c, (View(), answer)) && c != MoreData
    {
      c, answer := r, A.Plain;
      if r == Done {
        answer := CheckFinished(dev);
      } else if r == MoreData {
        c := Done;
      }
    }

    /** handle_tree_chunk */
    method TreeChunk(dev: A.Device, data: bytes) returns (c: Code, answer: A.Answer)
      requires Valid()
      modifies Owned()
      ensures Valid() && Agrees(A.TreeChunk(dev, old(View()), data), c, (View(), answer)) && c != MoreData
    {
      hide BS.AddTree, A.EndStep;
      if state != A.AttestApproved {
        return Err(BadState), A.Plain;
      }
      ghost var was := View();
      c := box.AddTree(data);
      c, answer := EndStep(dev, c, was, BS.AddTree(A.RunOf(was), data));
    }

    /** handle_tokens */
    method Tokens(dev: A.Device, data: bytes) returns (c: Code, answer: A.Answer)
      requires Valid()
      modifies Owned()
      ensures Valid() && Agrees(A.Tokens(dev, old(View()), data), c, (View(), answer)) && c != MoreData
    {
      hide BS.AddTokens, A.EndStep;
      if state != A.AttestApproved {
        return Err(BadState), A.Plain;
      }
      ghost var was := View();
      c := box.AddTokens(data, null, 0);
      c, answer := EndStep(dev, c, was, BS.AddTokens(A.RunOf(was), data, BS.FullIds));
    }

    /** handle_registers_chunk */
    method Registers(dev: A.Device, data: bytes) returns (c: Code, answer: A.Answer)
      requires Valid()
      modifies Owned()
      ensures Valid() && Agrees(A.Registers(dev, old(View()), data), c, (View(), answer)) && c != MoreData
    {
      hide BS.AddRegisters, A.EndStep;
      if state != A.AttestApproved {
        return Err(BadState), A.Plain;
      }
      ghost var was := View();
      c := box.AddRegisters(data);
      c, answer := EndStep(dev, c, was, BS.AddRegisters(A.RunOf(was), data));
    }

    /** The token list of a frame, written pair by pair. */
    method WritePairs(from: nat, to: nat) returns (out: bytes)
      requires Valid() && from <= to <= tokens.table.count
      ensures out == PairsBytes(tokens.View()[from..to])
    {
      out := [];
      ghost var ts := tokens.View()[from..to];
      var i := from;
      while i < to
        invariant from <= i <= to
        invariant out + PairsBytes(ts[i - from..]) == PairsBytes(ts)
      {
        ghost var rest := ts[i - from..];
        assert rest[0] == Token(tokens.table.tokens[i], tokens.amounts[i]) && rest[1..] == ts[i + 1 - from..];
        ghost var was := out;
        out := out + tokens.table.tokens[i];
        out := out + ToBE(tokens.amounts[i], 8);
        Assoc(was, rest[0].id, ToBE(rest[0].amount, 8));
        Assoc(was, rest[0].id + ToBE(rest[0].amount, 8), PairsBytes(rest[1..]));
        i := i + 1;
      }
      assert ts[i - from..] == [];
    }

    /** handle_get_frame and send_response_attested_input_frame */
    method GetFrame(dev: A.Device, data: bytes) returns (c: Code, answer: A.Answer)
      requires Valid()
      ensures Agrees(A.GetFrame(dev, View(), data), c, (View(), answer)) && c != MoreData
    {
      if state != A.AttestFinished {
        return Err(BadState), A.Plain;
      }
      if |data| < 1 {
        return Err(NotEnoughData), A.Plain;
      }
      if |data| > 1 {
        return Err(TooMuchData), A.Plain;
      }
      var index, count := data[0], FramesCount(tokens.table.count);
      if index >= count {
        return Err(BadFrameIndex), A.Plain;
      }
      var offset := FRAME_MAX_TOKENS_COUNT * index;
      var n := tokens.table.count - offset;
      n := if n < FRAME_MAX_TOKENS_COUNT then n else FRAME_MAX_TOKENS_COUNT;
      var out := id + [count] + [index] + ToBE(box.value, 8) + [n];
      var pairs := WritePairs(offset, offset + n);
      assert tokens.View()[offset..offset + n] == Share(tokens.View(), index);
      out := out + pairs;
      return Done, A.Attested(out, dev.mac(out));
    }
  }

  datatype CurrentCommand = CmdNone | CmdSignTransaction | CmdAttestInputBox | CmdOther

  /** app_ctx_t; the contexts of the commands share memory, so only the current command's is looked at. */
  class Device {
    const signing: OperationContext
    const attest: AttestContext
    var command: CurrentCommand
    var session: u8
    var screen: Screen
    var issued: set<(bytes, bytes)>

    ghost predicate Valid()
      reads this, signing, signing.tx, signing.amounts, signing.amounts.table, signing.output
      reads attest, attest.tokens, attest.tokens.table
    {
      && signing.Valid() && attest.Valid()
      && signing.Owned() !! attest.Owned()
    }

    ghost function View(): App
      requires Valid()
      reads this, signing, signing.hash, signing.amounts, signing.amounts.table, signing.output
      reads signing.tx, signing.tx.input, signing.tx.box
      reads attest, attest.hash, attest.tokens, attest.tokens.table, attest.box
    {
      App(match command
          case CmdNone => NoCommand
          case CmdSignTransaction => Signing(session, signing.View())
          case CmdAttestInputBox => Attesting(attest.View())
          case CmdOther => OtherCommand,
          screen, issued)
    }

    /** app_init */
    constructor ()
      ensures Valid() && fresh(signing.Owned()) && fresh(attest.Owned()) && View() == Booted()
    {
      signing := new OperationContext();
      attest := new AttestContext();
      command, session, screen, issued := CmdNone, 0, NoScreen, {};
    }

    /** handler_err: app_set_current_command(CMD_NONE) */
    method Abort(e: Error) returns (r: Response)
      requires Valid()
      modifies this
      ensures Valid() && Application.Abort(old(View()), e) == Step(View(), r)
    {
      command, screen := CmdNone, NoScreen;
      return Response.Error(e);
    }

    /** handle_init_p2pk behind the first subcommand */
    method StartSession(hasToken: bool, data: bytes, env: Surroundings) returns (r: Response)
      requires Valid()
      modifies this, signing.Owned()
      ensures Valid() && issued == old(issued)
      ensures var l := InitParameters(data, hasToken);
              if l.Fail? then Application.Abort(old(View()), l.e) == Step(View(), r)
              else if !env.accepted then Application.Abort(old(View()), Denied) == Step(View(), r)
              else && View() == old(View()).(ctx := Signing(env.session, S.Start(env.commitment)))
                   && r == SessionId(env.session)
    {
      var l := InitParameters(data, hasToken);
      if l.Fail? {
        r := Abort(l.e);
        return;
      }
      if !env.accepted {
        r := Abort(Denied);
        return;
      }
      signing.Restart(env.commitment);
      command, session := CmdSignTransaction, env.session;
      return SessionId(env.session);
    }

    /** The subcommands of a running signing session. */
    method RunSubcommand(sub: u8, data: bytes, env: Surroundings) returns (r: Response)
      requires Valid() && command == CmdSignTransaction && S.Coupled(signing.View())
      modifies this, signing.Owned()
      ensures Valid() && Application.RunSubcommand(old(View()), sub, data, env) == Step(View(), r)
    {
      hide S.Exec, ReadCommand;
      var cmd := ReadCommand(issued, sub, data, env);
      if !cmd.Ok? {
        r := Abort(if cmd.Fail? then cmd.e else BadState);
        return;
      }
      var c := signing.Execute(cmd.s);
      if c != Done {
        r := Abort(if c.Err? then c.e else BadState);
        return;
      }
      if !env.screens && (0x16 <= sub <= 0x1A || sub == 0x20) {
        r := Abort(Denied);
        return;
      }
      var blind := signing.output.IsBlind();
      screen := if sub == 0x20 then Review
                else if 0x16 <= sub <= 0x1A && env.warns && blind then BlindWarning else NoScreen;
      return if screen == NoScreen then Success else Nothing;
    }

    /** handler_sign_transaction */
    method HandleSign(sub: u8, p2: u8, data: bytes, env: Surroundings) returns (r: Response)
      requires Valid() && Safe(View())
      modifies this, signing.Owned()
      ensures Valid() && Application.HandleSign(old(View()), sub, p2, data, env) == Step(View(), r)
    {
      hide Application.RunSubcommand, S.Coupled, InitParameters;
      if screen != NoScreen {
        return Response.Error(Busy);
      }
      if sub == 0x01 {
        if p2 != 0x01 && p2 != 0x02 {
          return Response.Error(BadParameters);
        }
        r := StartSession(p2 == 0x02, data, env);
      } else if !IsSubcommand(sub) {
        r := Abort(BadSubcommand);
      } else if command != CmdSignTransaction {
        r := Abort(BadState);
      } else if p2 != session {
        r := Abort(BadSession);
      } else {
        r := RunSubcommand(sub, data, env);
      }
    }

    /** The subcommands of a running attestation session; a frame handed out counts as issued. */
    method RunAttest(dev: A.Device, sub: u8, data: bytes) returns (r: Response)
      requires Valid() && command == CmdAttestInputBox
      modifies this, attest.Owned()
      ensures Valid() && Application.RunAttest(dev, old(View()), sub, data) == Step(View(), r)
    {
      hide A.TreeChunk, A.Tokens, A.Registers, A.GetFrame;
      var c, answer;
      if sub == 0x02 {
        c, answer := attest.TreeChunk(dev, data);
      } else if sub == 0x03 {
        c, answer := attest.Tokens(dev, data);
      } else if sub == 0x04 {
        c, answer := attest.Registers(dev, data);
      } else {
        c, answer := attest.GetFrame(dev, data);
      }
      if c.Err? {
        r := Abort(c.e);
        return;
      }
      if answer.Attested? {
        issued := issued + {(answer.frame, answer.code)};
      }
      return AnswerOf(answer);
    }

    /** handler_attest_input */
    method HandleAttest(dev: A.Device, sub: u8, p2: u8, data: bytes, env: Surroundings) returns (r: Response)
      requires Valid()
      modifies this, attest.Owned()
      ensures Valid() && Application.HandleAttest(dev, old(View()), sub, p2, data, env) == Step(View(), r)
      ensures sub == 0x01 && !r.Error? ==>
                command == CmdAttestInputBox
                && if env.known then attest.state == A.AttestApproved && r == SessionId(attest.session)
                   else attest.state == A.AttestInitialized && screen == Consent && r == Response.Nothing
    {
      hide Application.RunAttest, A.Init;
      if screen != NoScreen {
        return Response.Error(Busy);
      }
      if sub == 0x01 {
        if p2 != 0x01 && p2 != 0x02 {
          r := Abort(BadParameters);
          return;
        }
        var c := attest.Init(data, p2 == 0x02, env.session);
        if c.Err? {
          r := Abort(c.e);
          return;
        }
        command := CmdAttestInputBox;
        if env.known {
          attest.state := A.AttestApproved;
          return SessionId(attest.session);
        }
        screen := Consent;
        return Nothing;
      } else if sub < 0x02 || sub > 0x05 {
        r := Abort(BadSubcommand);
      } else if command != CmdAttestInputBox {
        r := Abort(BadState);
      } else if p2 != attest.session {
        r := Abort(BadSession);
      } else {
        r := RunAttest(dev, sub, data);
      }
    }

    /** ui_stx_operation_p2pk_send_response with the action that calls it, and ui_action_attest_input */
    method HandleAnswer(approved: bool, env: Surroundings) returns (r: Response)
      requires Valid()
      modifies this, attest
      ensures Valid() && Application.HandleAnswer(old(View()), approved, env) == Step(View(), r)
      ensures r.Signature? || r.SessionId? ==> approved
      ensures !approved && old(screen) != NoScreen ==>
                r == Response.Error(Denied) && (command == CmdNone || old(screen) == BlindWarning)
      ensures r.Signature? ==> env.signed && command == CmdNone && r.message == old(signing.hash.log)
    {
      if screen == NoScreen {
        return Nothing;
      }
      match command
      case CmdSignTransaction =>
        if screen == BlindWarning {
          screen := NoScreen;
          r := Response.Error(Denied);
        } else if !approved {
          r := Abort(Denied);
        } else if signing.state != S.Finalized || !env.signed {
          r := Abort(BadState);
        } else {
          command, screen := CmdNone, NoScreen;
          r := Signature(signing.hash.log);
        }
      case CmdAttestInputBox =>
        if !approved {
          r := Abort(Denied);
        } else {
          attest.state, screen := A.AttestApproved, NoScreen;
          r := SessionId(attest.session);
        }
      case _ =>
        r := Abort(Denied);
    }

    /** One event. */
    method Handle(dev: A.Device, e: Event) returns (r: Response)
      requires Valid() && Safe(View())
      modifies this, signing.Owned(), attest.Owned()
      ensures Valid() && Next(dev, old(View()), e) == Step(View(), r)
    {
      hide Application.HandleSign, Application.HandleAttest, Application.HandleAnswer, S.Coupled;
      match e
      case SignApdu(sub, p2, data, env) => r := HandleSign(sub, p2, data, env);
      case AttestApdu(sub, p2, data, env) => r := HandleAttest(dev, sub, p2, data, env);
      case OtherApdu =>
        if screen != NoScreen {
          r := Response.Error(Busy);
        } else {
          command := CmdOther;
          r := Nothing;
        }
      case UserAnswer(approved, env) => r := HandleAnswer(approved, env);
    }
  }

  /** The response to the `k`-th event of a run. */
  ghost function ResponseAt(dev: A.Device, events: seq<Event>, k: nat): Response
    requires A.Proper(dev) && k < |events|
  {
    Next(dev, R.After(dev, events[..k]).app, events[k]).response
  }

  lemma OneEventMore(dev: A.Device, events: seq<Event>, k: nat)
    requires A.Proper(dev) && k < |events|
    ensures Safe(R.After(dev, events[..k]).app)
    ensures Next(dev, R.After(dev, events[..k]).app, events[k])
         == Step(R.After(dev, events[..k + 1]).app, ResponseAt(dev, events, k))
  {
    hide Next, Safe, R.Inv, R.Remember, A.Proper;
    assert TxTypes.Front(events[..k + 1]) == events[..k];
  }

  lemma EverySignatureJustified(dev: A.Device, events: seq<Event>, k: nat)
    requires A.Proper(dev) && k < |events| && ResponseAt(dev, events, k).Signature?
    ensures T.Justified(dev, R.After(dev, events[..k]), ResponseAt(dev, events, k).message)
    ensures events[k].UserAnswer? && events[k].approved
  {
    hide Next, Safe, R.Inv, R.After, A.Proper, T.Justified;
    T.SignatureSound(dev, events[..k], events[k]);
  }

  /**
   A whole run from power-on: the objects go through the states of the run, and every
   signature among the responses is justified at its moment.
   */
  method Serve(dev: A.Device, events: seq<Event>) returns (responses: seq<Response>)
    requires A.Proper(dev)
    ensures |responses| == |events|
    ensures forall k :: 0 <= k < |events| ==> responses[k] == ResponseAt(dev, events, k)
    ensures forall k :: 0 <= k < |events| && responses[k].Signature? ==>
              && events[k].UserAnswer? && events[k].approved
              && T.Justified(dev, R.After(dev, events[..k]), responses[k].message)
  {
    hide Next, Safe, R.Inv, A.Proper, T.Justified, ResponseAt;
    responses := [];
    var device := new Device();
    assert R.After(dev, []).app == Booted() && events[..0] == [];
    hide R.After;
    for i := 0 to |events|
      invariant fresh(device) && fresh(device.signing.Owned()) && fresh(device.attest.Owned())
      invariant device.Valid() && |responses| == i && device.View() == R.After(dev, events[..i]).app
      invariant forall k :: 0 <= k < i ==> responses[k] == ResponseAt(dev, events, k)
    {
      OneEventMore(dev, events, i);
      var r := device.Handle(dev, events[i]);
      responses := responses + [r];
    }
    forall k | 0 <= k < |events| && responses[k].Signature?
      ensures T.Justified(dev, R.After(dev, events[..k]), responses[k].message)
      ensures events[k].UserAnswer? && events[k].approved
    {
      EverySignatureJustified(dev, events, k);
    }
  }
}
