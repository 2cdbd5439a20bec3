/** The server side of an installation: reserve a server_id, prepare, dispatch, register and bind,
    marking the reservation failed on the way out. Everything outside the allocator is an input. */
module MysqlInstall {
  import opened Options
  import opened ServerIds
  import opened RenderConfig
  import opened Template
  import opened Text

  /** What the rest of the world answers; `order` is the order of the rendering's map iteration and
      `writes` says whether the write of MarkFailed, whose error is ignored, takes effect. */
  datatype Inputs = Inputs(
    valid: bool, hostId: Option<int>, known: bool,
    passwordOk: bool, encryptOk: bool, credentialOk: bool,
    config: ConfigValues, order: seq<Key>,
    dispatchOk: bool, instance: Option<int>, verified: bool, writes: bool)

  datatype Stage = Validate | Allocate | Password | Encrypt | Credential | Render | Dispatch | Register | BindId | Verify

  datatype Result = Installed(instanceId: int, serverId: int) | Error(stage: Stage)

  predicate Preparing(stage: Stage) {
    stage.Password? || stage.Encrypt? || stage.Credential? || stage.Render?
  }

  /** The stages between the reservation and the registration of the instance. */
  predicate Unregistered(stage: Stage) {
    Preparing(stage) || stage.Dispatch? || stage.Register?
  }

  function OrReserved(was: Option<Status>): Status {
    if was.Some? then was.value else Reserved
  }

  /** The status the reservation ends with; `was` is its status before, if it existed. */
  function FinalStatus(r: Result, was: Option<Status>, writes: bool): Status {
    match r
    case Installed(_, _) => Bound
    case Error(stage) =>
      if stage.Verify? then Bound
      else if Unregistered(stage) && writes && OrReserved(was) == Reserved then Failed
      else OrReserved(was)
  }

  predicate SameExcept(t: Table, t': Table, id: int) {
    && (forall j | j in t.rows :: j != id ==> j in t'.rows && t'.rows[j] == t.rows[j])
    && (forall j | j in t'.rows :: j == id || j in t.rows)
  }

  function StatusIn(t: Table, id: int): Option<Status> {
    if id in t.rows then Some(t.rows[id].status) else None
  }

  /** No row names the instance that registration is about to create. */
  predicate NewInstance(t: Table, instance: Option<int>) {
    instance.Some? ==> forall j | j in t.rows :: t.rows[j].instanceId != instance
  }

  /** The slot's row is there with this id and status, and no other row differs from before. */
  ghost predicate HasRow(before: Table, t: Table, hostId: int, port: int, slot: Reservation, status: Status) {
    && IsSlot(t, hostId, port, Some(slot.id)) && t.rows[slot.id].serverId == slot.serverId
    && SameExcept(before, t, slot.id) && t.rows[slot.id].status == status
  }

  /** Marking the reservation failed, or not being able to. */
  lemma FailLeaves(before: Table, t: Table, hostId: int, port: int, slot: Reservation, stage: Stage, writes: bool)
    requires Unregistered(stage) && HasRow(before, t, hostId, port, slot, OrReserved(StatusIn(before, slot.id)))
    ensures HasRow(before, if writes then AfterMarkFailed(t, slot.id) else t, hostId, port, slot,
                   FinalStatus(Error(stage), StatusIn(before, slot.id), writes))
  {
  }

  /** The table after the dispatch and what follows it. */
  function Concluded(t: Table, id: int, r: Result, input: Inputs): Table {
    match r
    case Installed(instanceId, _) => AfterBind(t, id, instanceId)
    case Error(stage) =>
      if stage.BindId? then t
      else if stage.Verify? && input.instance.Some? then AfterBind(t, id, input.instance.value)
      else if input.writes then AfterMarkFailed(t, id)
      else t
  }

  lemma ConcludeLeaves(before: Table, t: Table, hostId: int, port: int, slot: Reservation, r: Result, input: Inputs)
    requires HasRow(before, t, hostId, port, slot, OrReserved(StatusIn(before, slot.id)))
    requires r.Error? ==> !Preparing(r.stage) && !r.stage.Validate? && !r.stage.Allocate?
    requires r.Installed? ==> BindAccepted(t, slot.id, r.instanceId)
    requires r == Error(Verify) ==> input.instance.Some? && BindAccepted(t, slot.id, input.instance.value)
    ensures HasRow(before, Concluded(t, slot.id, r, input), hostId, port, slot, FinalStatus(r, StatusIn(before, slot.id), input.writes))
    ensures r.Installed? ==> Concluded(t, slot.id, r, input).rows[slot.id].instanceId == Some(r.instanceId)
  {
  }

  /** Which preparation stage fails, once the slot is reserved. */
  predicate StageReached(failed: Option<Stage>, reserved: bool, input: Inputs) {
    && (failed == Some(Password) <==> reserved && !input.passwordOk)
    && (failed == Some(Encrypt) <==> reserved && input.passwordOk && !input.encryptOk)
    && (failed == Some(Credential) <==> reserved && input.passwordOk && input.encryptOk && !input.credentialOk)
    && (failed == Some(Stage.Render) || failed.None? <==> reserved && input.passwordOk && input.encryptOk && input.credentialOk)
  }

  class Service {
    const serverIds: ServerIdRepo

    constructor (serverIds: ServerIdRepo)
      ensures this.serverIds == serverIds
    {
      this.serverIds := serverIds;
    }

    method Fail(id: int, writes: bool)
      requires serverIds.Valid()
      modifies serverIds
      ensures serverIds.Valid()
      ensures serverIds.View() == if writes then AfterMarkFailed(old(serverIds.View()), id) else old(serverIds.View())
    {
      if writes {
        serverIds.MarkFailed(id);
      }
    }

    static method RenderFor(config: ConfigValues, order: seq<Key>) returns (r: Rendered)
      requires IsOrder(order)
      ensures r == RenderConfig.Render(config, order)
    {
      r := RenderConfig.RenderConfig(config, order);
    }

    /** From the random password to the configuration text, marking the reservation failed on error. */
    method Prepare(slot: Reservation, input: Inputs, port: int) returns (failed: Option<Stage>, text: string)
      requires serverIds.Valid() && slot.id in serverIds.rows && IsOrder(input.order)
      modifies serverIds
      ensures serverIds.Valid()
      ensures failed.None? ==> serverIds.View() == old(serverIds.View())
      ensures failed.None? ==> RenderConfig.Render(input.config.(port := port, serverId := slot.serverId), input.order) == Ok(text)
      ensures failed.Some? ==> Preparing(failed.value)
      ensures StageReached(failed, true, input)
      ensures failed == Some(Stage.Render) ==> RenderConfig.Render(input.config.(port := port, serverId := slot.serverId), input.order).Err?
      ensures failed.Some? ==>
                serverIds.View() == if input.writes then AfterMarkFailed(old(serverIds.View()), slot.id) else old(serverIds.View())
    {
      text := "";
      if !input.passwordOk {
        Fail(slot.id, input.writes);
        return Some(Password), text;
      }
      if !input.encryptOk {
        Fail(slot.id, input.writes);
        return Some(Encrypt), text;
      }
      if !input.credentialOk {
        Fail(slot.id, input.writes);
        return Some(Credential), text;
      }
      var rendered := RenderFor(input.config.(port := port, serverId := slot.serverId), input.order);
      if rendered.Err? {
        Fail(slot.id, input.writes);
        return Some(Stage.Render), text;
      }
      return None, rendered.text;
    }

    method ReserveSlot(taskId: int, hostId: int, port: int, input: Inputs) returns (slot: Option<Reservation>)
      requires serverIds.Valid()
      modifies serverIds
      ensures serverIds.Valid()
      ensures slot.None? <==> NoRoom(old(serverIds.View()), hostId, port, input.known)
      ensures slot.None? ==> serverIds.View() == old(serverIds.View())
      ensures slot.Some? ==> HasRow(old(serverIds.View()), serverIds.View(), hostId, port, slot.value,
                                    OrReserved(StatusIn(old(serverIds.View()), slot.value.id)))
      ensures NewInstance(old(serverIds.View()), input.instance) ==> NewInstance(serverIds.View(), input.instance)
    {
      slot := serverIds.Reserve(taskId, hostId, port, input.known);
    }

    /** The checks, the reservation and the preparation. */
    method Begin(taskId: int, port: int, input: Inputs) returns (failed: Option<Stage>, slot: Reservation, text: string)
      requires serverIds.Valid() && IsOrder(input.order)
      modifies serverIds
      ensures serverIds.Valid()
      ensures failed.Some? ==> failed.value.Validate? || failed.value.Allocate? || Preparing(failed.value)
      ensures failed == Some(Validate) || failed == Some(Allocate) ==> serverIds.View() == old(serverIds.View())
      ensures failed == Some(Validate) <==> !input.valid || input.hostId.None?
      ensures failed == Some(Allocate) <==>
              input.valid && input.hostId.Some? && NoRoom(old(serverIds.View()), input.hostId.value, port, input.known)
      ensures StageReached(failed, failed != Some(Validate) && failed != Some(Allocate), input)
      ensures failed != Some(Validate) && failed != Some(Allocate) ==>
                && input.hostId.Some?
                && HasRow(old(serverIds.View()), serverIds.View(), input.hostId.value, port, slot,
                          if failed.Some? then FinalStatus(Error(failed.value), StatusIn(old(serverIds.View()), slot.id), input.writes)
                          else OrReserved(StatusIn(old(serverIds.View()), slot.id)))
      ensures failed.None? ==> RenderConfig.Render(input.config.(port := port, serverId := slot.serverId), input.order) == Ok(text)
      ensures failed.None? && NewInstance(old(serverIds.View()), input.instance) ==> NewInstance(serverIds.View(), input.instance)
    {
      slot, text := Reservation(0, 0), "";
      if !input.valid || input.hostId.None? {
        return Some(Validate), slot, text;
      }
      var reservation := ReserveSlot(taskId, input.hostId.value, port, input);
      if reservation.None? {
        return Some(Allocate), slot, text;
      }
      slot := reservation.value;
      ghost var reserved := serverIds.View();
      failed, text := Prepare(slot, input, port);
      if failed.Some? {
        FailLeaves(old(serverIds.View()), reserved, input.hostId.value, port, slot, failed.value, input.writes);
      }
    }

    /** From the dispatch to the final check. */
    method Conclude(slot: Reservation, input: Inputs) returns (r: Result)
      requires serverIds.Valid() && slot.id in serverIds.rows
      modifies serverIds
      ensures serverIds.Valid()
      ensures r.Installed? || r == Error(Dispatch) || r == Error(Register) || r == Error(BindId) || r == Error(Verify)
      ensures serverIds.View() == Concluded(old(serverIds.View()), slot.id, r, input)
      ensures r.Installed? ==> input.instance == Some(r.instanceId) && r.serverId == slot.serverId
      ensures r.Installed? || r == Error(Verify) ==>
                input.instance.Some? && BindAccepted(old(serverIds.View()), slot.id, input.instance.value)
      ensures r == Error(Dispatch) <==> !input.dispatchOk
      ensures r == Error(Register) <==> input.dispatchOk && input.instance.None?
      ensures r == Error(BindId) <==> input.dispatchOk && input.instance.Some? && !BindAccepted(old(serverIds.View()), slot.id, input.instance.value)
      ensures r == Error(Verify) ==> input.dispatchOk && !input.verified
      ensures r.Installed? ==> input.dispatchOk && input.verified
    {
      if !input.dispatchOk {
        Fail(slot.id, input.writes);
        return Error(Dispatch);
      }
      if input.instance.None? {
        Fail(slot.id, input.writes);
        return Error(Register);
      }
      var bound := serverIds.BindInstance(slot.id, input.instance.value);
      if !bound {
        return Error(BindId);
      }
      if !input.verified {
        return Error(Verify);
      }
      return Installed(input.instance.value, slot.serverId);
    }

    /** The end of an installation, as the table before it sees it. */
    method End(slot: Reservation, input: Inputs, ghost before: Table, ghost hostId: int, ghost port: int) returns (r: Result)
      requires serverIds.Valid() && slot.id in serverIds.rows
      requires HasRow(before, serverIds.View(), hostId, port, slot, OrReserved(StatusIn(before, slot.id)))
      modifies serverIds
      ensures serverIds.Valid()
      ensures HasRow(before, serverIds.View(), hostId, port, slot, FinalStatus(r, StatusIn(before, slot.id), input.writes))
      ensures r.Installed? ==> slot.id in serverIds.rows && serverIds.rows[slot.id].instanceId == Some(r.instanceId) == input.instance
      ensures r.Installed? ==> r.serverId == slot.serverId && input.dispatchOk && input.verified
      ensures r.Installed? || r == Error(Dispatch) || r == Error(Register) || r == Error(BindId) || r == Error(Verify)
      ensures r == Error(Dispatch) <==> !input.dispatchOk
      ensures r == Error(Register) <==> input.dispatchOk && input.instance.None?
      ensures r == Error(BindId) ==> input.dispatchOk && input.instance.Some?
      ensures r == Error(Verify) ==> input.dispatchOk && input.instance.Some? && !input.verified
      ensures NewInstance(old(serverIds.View()), input.instance) ==> r != Error(BindId)
    {
      r := Conclude(slot, input);
      ConcludeLeaves(before, old(serverIds.View()), hostId, port, slot, r, input);
    }

    method InstallSteps(taskId: int, port: int, input: Inputs) returns (r: Result, slot: int, sent: Option<string>)
      requires serverIds.Valid() && IsOrder(input.order)
      modifies serverIds
      ensures serverIds.Valid()
      ensures r == Error(Validate) || r == Error(Allocate) ==> serverIds.View() == old(serverIds.View())
      ensures r != Error(Validate) && r != Error(Allocate) ==>
                && input.hostId.Some? && slot in serverIds.rows
                && HasRow(old(serverIds.View()), serverIds.View(), input.hostId.value, port, Reservation(slot, serverIds.rows[slot].serverId),
                          FinalStatus(r, StatusIn(old(serverIds.View()), slot), input.writes))
      ensures r.Installed? ==>
                && serverIds.rows[slot].instanceId == Some(r.instanceId) == input.instance
                && serverIds.rows[slot].serverId == r.serverId
      ensures sent.Some? ==>
                slot in serverIds.rows
                && RenderConfig.Render(input.config.(port := port, serverId := serverIds.rows[slot].serverId), input.order) == Ok(sent.value)
      ensures r.Installed? || r == Error(Dispatch) || r == Error(Register) || r == Error(BindId) || r == Error(Verify) <==> sent.Some?
      ensures r == Error(Validate) <==> !input.valid || input.hostId.None?
      ensures r == Error(Allocate) <==>
              input.valid && input.hostId.Some? && NoRoom(old(serverIds.View()), input.hostId.value, port, input.known)
      ensures StageReached(if sent.Some? || r.Installed? then None else Some(r.stage), r != Error(Validate) && r != Error(Allocate), input)
      ensures r == Error(Dispatch) <==> sent.Some? && !input.dispatchOk
      ensures r == Error(Register) <==> sent.Some? && input.dispatchOk && input.instance.None?
      ensures r == Error(BindId) ==> sent.Some? && input.dispatchOk && input.instance.Some?
      ensures r == Error(Verify) ==> sent.Some? && input.dispatchOk && input.instance.Some? && !input.verified
      ensures r.Installed? ==> sent.Some? && input.dispatchOk && input.verified
      ensures NewInstance(old(serverIds.View()), input.instance) ==> r != Error(BindId)
    {
      sent, slot := None, 0;
      var failed, reservation, text := Begin(taskId, port, input);
      slot := reservation.id;
      if failed.Some? {
        return Error(failed.value), slot, sent;
      }
      sent := Some(text);
      r := End(reservation, input, old(serverIds.View()), input.hostId.value, port);
      assert reservation == Reservation(slot, serverIds.rows[slot].serverId);
    }

    /** `slot` is the reservation's row and `sent` the configuration text dispatched to the agent. */
    method Install(taskId: int, port: int, input: Inputs) returns (r: Result, slot: int, sent: Option<string>)
      requires serverIds.Valid() && IsOrder(input.order)
      modifies serverIds
      ensures serverIds.Valid()
      ensures r == Error(Validate) || r == Error(Allocate) ==> serverIds.View() == old(serverIds.View())
      ensures r != Error(Validate) && r != Error(Allocate) ==>
                && input.hostId.Some? && IsSlot(serverIds.View(), input.hostId.value, port, Some(slot))
                && SameExcept(old(serverIds.View()), serverIds.View(), slot)
                && serverIds.rows[slot].status == FinalStatus(r, StatusIn(old(serverIds.View()), slot), input.writes)
      ensures r.Installed? ==>
                && serverIds.rows[slot].instanceId == Some(r.instanceId) == input.instance
                && serverIds.rows[slot].serverId == r.serverId
      ensures sent.Some? ==>
                slot in serverIds.rows
                && RenderConfig.Render(input.config.(port := port, serverId := serverIds.rows[slot].serverId), input.order) == Ok(sent.value)
      ensures sent.Some? ==>
                serverIds.rows[slot].serverId >= 0 && Contains(sent.value, "\nserver_id=" + Decimal(serverIds.rows[slot].serverId) + "\n")
      ensures r.Installed? || r == Error(Dispatch) || r == Error(Register) || r == Error(BindId) || r == Error(Verify) <==> sent.Some?
      ensures r == Error(Validate) <==> !input.valid || input.hostId.None?
      ensures r == Error(Allocate) <==>
              input.valid && input.hostId.Some? && NoRoom(old(serverIds.View()), input.hostId.value, port, input.known)
      ensures StageReached(if sent.Some? || r.Installed? then None else Some(r.stage), r != Error(Validate) && r != Error(Allocate), input)
      ensures r == Error(Dispatch) <==> sent.Some? && !input.dispatchOk
      ensures r == Error(Register) <==> sent.Some? && input.dispatchOk && input.instance.None?
      ensures r == Error(BindId) ==> sent.Some? && input.dispatchOk && input.instance.Some?
      ensures r == Error(Verify) ==> sent.Some? && input.dispatchOk && input.instance.Some? && !input.verified
      ensures r.Installed? ==> sent.Some? && input.dispatchOk && input.verified
      ensures NewInstance(old(serverIds.View()), input.instance) ==> r != Error(BindId)
      ensures input.writes && NewInstance(old(serverIds.View()), input.instance) && r != Error(Validate) && r != Error(Allocate) ==>
                serverIds.rows[slot].status != Reserved
    {
      r, slot, sent := InstallSteps(taskId, port, input);
      if sent.Some? {
        IdLine(input.config.(port := port, serverId := serverIds.rows[slot].serverId), input.order, sent.value, "\nserver_id=");
      }
    }
  }
}
