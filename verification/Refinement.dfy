/**
 The stateless command machine refines a live transactional session.  One client keeps only a buffer: it
 sends it with each command and replaces it by field 0 of each successful response that carries a state.
 The other holds a session in memory and rolls back whenever an operation fails.
 */
module Refinement {
  import opened Wrappers
  import opened ByteStrings
  import opened Fields
  import opened StateCodec
  import opened CommandFrames
  import opened Engines
  import opened Sessions
  import opened Commands
  import opened SessionLaws

  /** What the client asks for, its state apart, and what the generator yields during the call. */
  datatype Command = Command(operation: Byte, args: seq<Bytes>, random: Random)

  // ---- The client that keeps a buffer ----

  function RequestFields(state: Bytes, c: Command): seq<Bytes> {
    if TakesState(c.operation) then [state] + c.args else c.args
  }

  ghost function Ask(e: Engine, state: Bytes, c: Command): CommandResult<seq<Bytes>> {
    Execute(e, EncodeRequest(c.operation, RequestFields(state, c)), c.random)
  }

  ghost function NextState(e: Engine, state: Bytes, c: Command): Bytes {
    var r := Ask(e, state, c);
    if r.Ok? && r.value != [] && ReturnsState(c.operation) then r.value[0] else state
  }

  ghost function StatelessAnswers(e: Engine, state: Bytes, cs: seq<Command>): seq<CommandResult<seq<Bytes>>>
    decreases |cs|
  {
    if cs == [] then [] else [Ask(e, state, cs[0])] + StatelessAnswers(e, NextState(e, state, cs[0]), cs[1..])
  }

  ghost function StatelessEnd(e: Engine, state: Bytes, cs: seq<Command>): Bytes
    decreases |cs|
  {
    if cs == [] then state else StatelessEnd(e, NextState(e, state, cs[0]), cs[1..])
  }

  // ---- The live session ----

  /** The size its storage would have as a buffer. */
  ghost function StateLength(s: Storage): nat {
    |Frame(Canonical(s))|
  }

  /** The live session serves what would fit a request frame; only sizes are consulted. */
  ghost function LiveRefusal(s: Storage, c: Command): Option<RequestError> {
    var within := Within(c.args, MAX_STATE_BYTES);
    if TakesState(c.operation) then
      Refusal(HEADER_BYTES + 4 + StateLength(s) + FieldsLength(c.args), 1 + |c.args|, within)
    else
      Refusal(HEADER_BYTES + FieldsLength(c.args), |c.args|, within)
  }

  /** The operation itself, on the storage in memory; no buffer is read. */
  ghost function Attempt(e: Engine, s: Storage, c: Command): (CommandResult<seq<Bytes>>, Storage) {
    if c.operation == INITIALIZE then
      if !(1 <= |c.args| <= 2) then
        (Err(InvalidFieldCount), s)
      else
        var o := InitializeFields(e, c.args, c.random);
        (Displayed(o.result), o.storage)
    else if TakesState(c.operation) then
      if |c.args| != Arity(c.operation) then
        (Err(InvalidFieldCount), s)
      else
        var o := Operate(e, s, c.operation, c.args, c.random);
        (Displayed(o.result), o.storage)
    else
      (Err(UnsupportedCommand), s)
  }

  ghost function Live(e: Engine, s: Storage, c: Command): (CommandResult<seq<Bytes>>, Storage) {
    match LiveRefusal(s, c)
    case Some(x) => (Err(Request(x)), s)
    case None =>
      var (r, after) := Attempt(e, s, c);
      (r, if r.Ok? then after else s)
  }

  ghost function LiveAnswers(e: Engine, s: Storage, cs: seq<Command>): seq<CommandResult<seq<Bytes>>>
    decreases |cs|
  {
    if cs == [] then [] else [Live(e, s, cs[0]).0] + LiveAnswers(e, Live(e, s, cs[0]).1, cs[1..])
  }

  ghost function LiveEnd(e: Engine, s: Storage, cs: seq<Command>): Storage
    decreases |cs|
  {
    if cs == [] then s else LiveEnd(e, Live(e, s, cs[0]).1, cs[1..])
  }

  // ---- One step ----

  /** The buffer is the live storage, exported, and the next import will accept it. */
  ghost predicate Linked(e: Engine, state: Bytes, s: Storage) {
    Export(s) == Ok(state) && Ready(e, s)
  }

  lemma LinkedImports(e: Engine, state: Bytes, s: Storage)
    requires Linked(e, state, s)
    ensures ImportSession(e, state) == Ok(s)
    ensures |state| == StateLength(s) <= MAX_STATE_BYTES
  {
    RoundTrip(s);
  }

  lemma AdmissionMatches(state: Bytes, s: Storage, c: Command)
    requires |state| == StateLength(s) <= MAX_STATE_BYTES
    ensures Admission(c.operation, RequestFields(state, c)) ==
            match LiveRefusal(s, c)
            case Some(x) => Err(x)
            case None => Ok((c.operation, RequestFields(state, c)))
  {
    hide StateLength, FieldsLength, Within, Refusal;
    if TakesState(c.operation) {
      FieldsCons(state, c.args, MAX_STATE_BYTES);
    }
  }

  /** A client's frame is refused exactly when the live session would refuse the command. */
  lemma AdmissionAgrees(e: Engine, state: Bytes, s: Storage, c: Command)
    requires Linked(e, state, s) && |c.args| < U8_RANGE - 1
    ensures DecodeRequest(EncodeRequest(c.operation, RequestFields(state, c))) ==
            match LiveRefusal(s, c)
            case Some(x) => Err(x)
            case None => Ok((c.operation, RequestFields(state, c)))
  {
    hide DecodeRequest, EncodeRequest, Linked, StateLength, ImportSession, Admission, LiveRefusal;
    LinkedImports(e, state, s);
    AdmissionMatches(state, s, c);
    DecodeEncoded(c.operation, RequestFields(state, c));
  }

  /** Dispatching the fields answers as the live attempt does, with the outcome made durable. */
  ghost predicate Agrees(e: Engine, state: Bytes, s: Storage, c: Command) {
    var (r, after) := Attempt(e, s, c);
    && Dispatch(e, c.operation, RequestFields(state, c), c.random) == r
    && (r.Ok? ==> r.value != [] && Ready(e, after))
    && (r.Ok? && ReturnsState(c.operation) ==> Export(after) == Ok(r.value[0]))
    && (r.Ok? && !ReturnsState(c.operation) ==> after == s)
  }

  /** A successful operation leaves a storage that can be imported again, and says so in field 0. */
  lemma OperationDurable(e: Engine, s: Storage, c: Command)
    requires Lawful(e) && Ready(e, s) && TakesState(c.operation) && |c.args| == Arity(c.operation)
    ensures var o := Operate(e, s, c.operation, c.args, c.random);
            && Ready(e, o.storage)
            && (o.result.Ok? ==> o.result.value != [])
            && (o.result.Ok? && ReturnsState(c.operation) ==> Export(o.storage) == Ok(o.result.value[0]))
            && (!ReturnsState(c.operation) ==> o.storage == s)
  {
    hide Lawful, Export, Operate, IdentityAndSigner, Keeps;
    OperationKeeps(e, s, c.operation, c.args, c.random);
    AnswerCarriesState(e, s, c.operation, c.args, c.random);
    OperateFieldCount(e, s, c.operation, c.args, c.random);
    KeptCredential(e, s, Operate(e, s, c.operation, c.args, c.random).storage);
  }

  lemma OperationAgrees(e: Engine, state: Bytes, s: Storage, c: Command)
    requires Lawful(e) && Linked(e, state, s) && TakesState(c.operation) && |c.args| == Arity(c.operation)
    ensures Agrees(e, state, s, c)
  {
    hide Lawful, ImportSession, Export, Operate, IdentityAndSigner, StateLength, InitializeFields;
    LinkedImports(e, state, s);
    OperationDurable(e, s, c);
    assert RequestFields(state, c)[1..] == c.args;
  }

  lemma InitializeAgrees(e: Engine, state: Bytes, s: Storage, c: Command)
    requires Lawful(e) && c.operation == INITIALIZE && 1 <= |c.args| <= 2
    ensures Agrees(e, state, s, c)
  {
    hide Lawful, ImportSession, Export, Operate, Initialize, IdentityAndSigner, Material;
    var root := if |c.args| == 2 then Some(c.args[1]) else None;
    if Initialize(e, c.args[0], root, c.random).result.Ok? {
      InitializedReady(e, c.args[0], root, c.random);
    }
  }

  lemma RefusalAgrees(e: Engine, state: Bytes, s: Storage, c: Command)
    requires !(TakesState(c.operation) && |c.args| == Arity(c.operation))
    requires !(c.operation == INITIALIZE && 1 <= |c.args| <= 2)
    ensures Agrees(e, state, s, c)
  {
    hide ImportSession, Export, Operate, InitializeFields;
  }

  /** What is decoded is dispatched as the live session attempts it, with the outcome made durable. */
  lemma DispatchAgrees(e: Engine, state: Bytes, s: Storage, c: Command)
    requires Lawful(e) && Linked(e, state, s)
    ensures Agrees(e, state, s, c)
  {
    hide Lawful, Linked, Agrees;
    if TakesState(c.operation) && |c.args| == Arity(c.operation) {
      OperationAgrees(e, state, s, c);
    } else if c.operation == INITIALIZE && 1 <= |c.args| <= 2 {
      InitializeAgrees(e, state, s, c);
    } else {
      RefusalAgrees(e, state, s, c);
    }
  }

  /** After the same command the two still agree: same answer, and the buffer is the storage exported. */
  lemma StepAgrees(e: Engine, state: Bytes, s: Storage, c: Command)
    requires Lawful(e) && Linked(e, state, s) && |c.args| < U8_RANGE - 1
    ensures Ask(e, state, c) == Live(e, s, c).0
    ensures Linked(e, NextState(e, state, c), Live(e, s, c).1)
  {
    hide Lawful, DecodeRequest, EncodeRequest, RequestFields, LiveRefusal, Export, Attempt, Dispatch, IdentityAndSigner;
    AdmissionAgrees(e, state, s, c);
    DispatchAgrees(e, state, s, c);
  }

  // ---- Whole runs ----

  /**
   Every run of commands gets the same answers from the stateless machine as from the live session, and
   ends with the buffer that imports as the live session's storage.
   */
  lemma {:induction false} RunsAgree(e: Engine, state: Bytes, s: Storage, cs: seq<Command>)
    requires Lawful(e) && Linked(e, state, s)
    requires forall c | c in cs :: |c.args| < U8_RANGE - 1
    ensures StatelessAnswers(e, state, cs) == LiveAnswers(e, s, cs)
    ensures Linked(e, StatelessEnd(e, state, cs), LiveEnd(e, s, cs))
    decreases |cs|
  {
    hide Lawful, Linked, Ask, NextState, Live;
    if cs == [] {
    } else {
      var c := cs[0];
      StepAgrees(e, state, s, c);
      RunsAgree(e, NextState(e, state, c), Live(e, s, c).1, cs[1..]);
    }
  }

  /**
   From a successful INITIALIZE on, however the run went, the two machines agree and the buffer held is
   accepted by the next import, as exactly the live session's storage.
   */
  lemma RunFromInitialize(e: Engine, identity: Bytes, root: Option<Bytes>, random: Random, cs: seq<Command>)
    requires Lawful(e) && Initialize(e, identity, root, random).result.Ok?
    requires forall c | c in cs :: |c.args| < U8_RANGE - 1
    ensures var o := Initialize(e, identity, root, random);
            var state := o.result.value.state;
            && StatelessAnswers(e, state, cs) == LiveAnswers(e, o.storage, cs)
            && ImportSession(e, StatelessEnd(e, state, cs)) == Ok(LiveEnd(e, o.storage, cs))
  {
    var o := Initialize(e, identity, root, random);
    InitializedReady(e, identity, root, random);
    RunsAgree(e, o.result.value.state, o.storage, cs);
    LinkedImports(e, StatelessEnd(e, o.result.value.state, cs), LiveEnd(e, o.storage, cs));
  }

  // ---- The registration material over whole runs ----

  lemma {:induction false} RunKeeps(e: Engine, s: Storage, cs: seq<Command>)
    requires Lawful(e)
    requires forall c | c in cs :: c.operation != INITIALIZE
    ensures Keeps(e, s, LiveEnd(e, s, cs))
    decreases |cs|
  {
    KeepsItself(e, s);
    hide Keeps, Lawful, Operate, LiveRefusal;
    if cs == [] {
    } else {
      var c := cs[0];
      var next := Live(e, s, c).1;
      if TakesState(c.operation) && |c.args| == Arity(c.operation) {
        OperationKeeps(e, s, c.operation, c.args, c.random);
      }
      RunKeeps(e, next, cs[1..]);
      KeepsTransitive(e, s, next, LiveEnd(e, s, cs));
    }
  }

  /**
   Whatever a device has done since INITIALIZE, PUBLIC_MATERIAL succeeds, hands the state back unchanged
   and reports the very material that INITIALIZE registered.
   */
  lemma MaterialIsStable(e: Engine, identity: Bytes, root: Option<Bytes>, random: Random, cs: seq<Command>,
                         later: Random)
    requires Lawful(e) && Initialize(e, identity, root, random).result.Ok?
    requires forall c | c in cs :: |c.args| < U8_RANGE - 1 && c.operation != INITIALIZE
    ensures var bootstrap := Initialize(e, identity, root, random).result.value;
            var state := StatelessEnd(e, bootstrap.state, cs);
            Ask(e, state, Command(PUBLIC_MATERIAL, [], later)) == Ok([state] + MaterialFields(bootstrap.publicMaterial))
  {
    var o := Initialize(e, identity, root, random);
    InitializedReady(e, identity, root, random);
    var s := LiveEnd(e, o.storage, cs);
    var state := StatelessEnd(e, o.result.value.state, cs);
    RunsAgree(e, o.result.value.state, o.storage, cs);
    RunKeeps(e, o.storage, cs);
    KeptMaterial(e, o.storage, s);
    ReportsMaterial(e, state, s, later);
  }

  lemma ReportsMaterial(e: Engine, state: Bytes, s: Storage, random: Random)
    requires Lawful(e) && Linked(e, state, s) && Material(e, s).Ok?
    ensures Ask(e, state, Command(PUBLIC_MATERIAL, [], random)) == Ok([state] + MaterialFields(Material(e, s).value))
  {
    hide Lawful, Ask, NextState, Live, ImportSession, Export, Material;
    StepAgrees(e, state, s, Command(PUBLIC_MATERIAL, [], random));
    LinkedImports(e, state, s);
    LiveReports(e, s, random);
  }

  lemma LiveReports(e: Engine, s: Storage, random: Random)
    requires Export(s).Ok? && Material(e, s).Ok? && StateLength(s) <= MAX_STATE_BYTES
    ensures Live(e, s, Command(PUBLIC_MATERIAL, [], random)).0 ==
            Ok([Export(s).value] + MaterialFields(Material(e, s).value))
  {
    hide Export, StateLength, LiveRefusal, Material, Operate;
    NotRefused(s, Command(PUBLIC_MATERIAL, [], random));
    OperateReports(e, s, random);
  }

  lemma NotRefused(s: Storage, c: Command)
    requires StateLength(s) <= MAX_STATE_BYTES && TakesState(c.operation) && c.args == []
    ensures LiveRefusal(s, c) == None
  {
    hide StateLength;
  }

  lemma OperateReports(e: Engine, s: Storage, random: Random)
    requires Export(s).Ok? && Material(e, s).Ok?
    ensures Operate(e, s, PUBLIC_MATERIAL, [], random) ==
            Outcome(s, Ok([Export(s).value] + MaterialFields(Material(e, s).value)))
  {
    hide Export, Material;
  }
}
