/**
 * The `device_commands` collection and the three ways the handlers change it: claiming
 * a device's oldest pending command, completing a command named by id, and completing
 * the device's newest running command when no id is given.
 */
module Commands {
  import opened Wrappers
  import opened Text

  datatype CommandStatus = Pending | Running | Completed | OtherStatus(name: string)

  /** A `device_commands` document; its id is its key in the collection. A field the
      document lacks is `None` (a document created by an explicit-id completion has no
      `deviceId` and no `createdAt`). `resultRef` names an `environment_analysis` entry. */
  datatype Command = Command(
    deviceId: Option<string>,
    status: CommandStatus,
    createdAt: Option<int>,
    startedAt: Option<int>,
    completedAt: Option<int>,
    resultRef: Option<nat>)

  /** `{ id: doc.id, ...doc.data() }`. */
  datatype ClaimedCommand = ClaimedCommand(id: string, data: Command)

  /** A pending command of the device that the claim query can return: the query orders
      by `createdAt`, which leaves out documents without that field. */
  predicate IsPendingFor(cmds: map<string, Command>, deviceId: string, id: string) {
    id in cmds && cmds[id].deviceId == Some(deviceId) && cmds[id].status == Pending && cmds[id].createdAt.Some?
  }

  /** A running command of the device that the fallback query (ordered by `startedAt`) can return. */
  predicate IsRunningFor(cmds: map<string, Command>, deviceId: string, id: string) {
    id in cmds && cmds[id].deviceId == Some(deviceId) && cmds[id].status == Running && cmds[id].startedAt.Some?
  }

  /** A pending command with the smallest `createdAt`; ties are the store's to break. */
  predicate IsOldestPending(cmds: map<string, Command>, deviceId: string, id: string) {
    IsPendingFor(cmds, deviceId, id)
    && forall k | k in cmds :: IsPendingFor(cmds, deviceId, k) ==> cmds[id].createdAt.value <= cmds[k].createdAt.value
  }

  /** A running command with the greatest `startedAt`; ties are the store's to break. */
  predicate IsNewestRunning(cmds: map<string, Command>, deviceId: string, id: string) {
    IsRunningFor(cmds, deviceId, id)
    && forall k | k in cmds :: IsRunningFor(cmds, deviceId, k) ==> cmds[k].startedAt.value <= cmds[id].startedAt.value
  }

  predicate HasPending(cmds: map<string, Command>, deviceId: string) {
    exists id | id in cmds :: IsPendingFor(cmds, deviceId, id)
  }

  predicate HasRunning(cmds: map<string, Command>, deviceId: string) {
    exists id | id in cmds :: IsRunningFor(cmds, deviceId, id)
  }

  /** `set({ status: 'running', startedAt }, { merge: true })` on the claimed document. */
  function ClaimUpdate(cmds: map<string, Command>, id: string, now: int): map<string, Command>
    requires id in cmds
  {
    cmds[id := cmds[id].(status := Running, startedAt := Some(now))]
  }

  /** `set({ status: 'completed', completedAt, resultRef }, { merge: true })`: merged into
      an existing document, or a new document holding only those fields. */
  function CompleteUpdate(cmds: map<string, Command>, id: string, now: int, ref: nat): map<string, Command> {
    var done :=
      if id in cmds then cmds[id].(status := Completed, completedAt := Some(now), resultRef := Some(ref))
      else Command(None, Completed, None, None, Some(now), Some(ref));
    cmds[id := done]
  }

  /** What a claim did: nothing when the device had no pending command; otherwise it
      returned the oldest pending command as it was read and marked it running at `now`. */
  predicate ClaimOutcome(before: map<string, Command>, deviceId: string, claimed: Option<ClaimedCommand>,
                         after: map<string, Command>, now: int)
  {
    match claimed
    case None => !HasPending(before, deviceId) && after == before
    case Some(c) =>
      IsOldestPending(before, deviceId, c.id) && c.data == before[c.id]
      && after == ClaimUpdate(before, c.id, now)
  }

  /** What a completion did: with an id, that document is completed whatever it held;
      without one, the device's newest running command is completed, or nothing changes
      when none is running. */
  predicate CompletionOutcome(before: map<string, Command>, deviceId: string, commandId: Option<string>,
                              ref: nat, completed: Option<string>, after: map<string, Command>, now: int)
  {
    match commandId
    case Some(id) => completed == Some(id) && after == CompleteUpdate(before, id, now, ref)
    case None =>
      match completed
      case None => !HasRunning(before, deviceId) && after == before
      case Some(id) => IsNewestRunning(before, deviceId, id) && after == CompleteUpdate(before, id, now, ref)
  }

  /** A completion as the handler sees it, which does not report the command it completed. */
  ghost predicate CompletedSome(before: map<string, Command>, deviceId: string, commandId: Option<string>,
                          ref: nat, after: map<string, Command>, now: int)
  {
    exists completed: Option<string> :: CompletionOutcome(before, deviceId, commandId, ref, completed, after, now)
  }

  /** `k` is one of `keys` whose number is least. */
  predicate LeastAmong(m: map<string, int>, keys: set<string>, k: string)
    requires keys <= m.Keys
  {
    k in keys && forall j :: j in keys ==> m[k] <= m[j]
  }

  /** Any non-empty finite set of keys of a map of numbers has a least one. */
  lemma {:induction false} LeastValueExists(m: map<string, int>, keys: set<string>)
    requires keys <= m.Keys && keys != {}
    ensures exists k :: LeastAmong(m, keys, k)
    decreases keys
  {
    var k0 :| k0 in keys;
    var rest := keys - {k0};
    if rest == {} {
      assert keys == {k0};
      assert LeastAmong(m, keys, k0);
    } else {
      LeastValueExists(m, rest);
      var k1 :| LeastAmong(m, rest, k1);
      if m[k0] <= m[k1] {
        assert LeastAmong(m, keys, k0);
      } else {
        assert LeastAmong(m, keys, k1);
      }
    }
  }

  /** A device with a pending command has an oldest one. */
  lemma OldestPendingExists(cmds: map<string, Command>, deviceId: string)
    requires HasPending(cmds, deviceId)
    ensures exists id | id in cmds :: IsOldestPending(cmds, deviceId, id)
  {
    var created := map k | k in cmds && IsPendingFor(cmds, deviceId, k) :: cmds[k].createdAt.value;
    var w :| w in cmds && IsPendingFor(cmds, deviceId, w);
    assert w in created;
    LeastValueExists(created, created.Keys);
    var k :| LeastAmong(created, created.Keys, k);
    forall j | j in cmds && IsPendingFor(cmds, deviceId, j)
      ensures cmds[k].createdAt.value <= cmds[j].createdAt.value
    {
      assert j in created;
    }
    assert IsOldestPending(cmds, deviceId, k);
  }

  /** A device with a running command has a newest one. */
  lemma NewestRunningExists(cmds: map<string, Command>, deviceId: string)
    requires HasRunning(cmds, deviceId)
    ensures exists id | id in cmds :: IsNewestRunning(cmds, deviceId, id)
  {
    var negated := map k | k in cmds && IsRunningFor(cmds, deviceId, k) :: -cmds[k].startedAt.value;
    var w :| w in cmds && IsRunningFor(cmds, deviceId, w);
    assert w in negated;
    LeastValueExists(negated, negated.Keys);
    var k :| LeastAmong(negated, negated.Keys, k);
    forall j | j in cmds && IsRunningFor(cmds, deviceId, j)
      ensures cmds[j].startedAt.value <= cmds[k].startedAt.value
    {
      assert j in negated;
    }
    assert IsNewestRunning(cmds, deviceId, k);
  }

  /** After a claim the claimed command is running with its start time, is no longer
      pending (a second claim cannot return it), kept every other field, and no other
      command changed. */
  lemma ClaimTakesExactlyOne(before: map<string, Command>, deviceId: string, claimed: Option<ClaimedCommand>,
                             after: map<string, Command>, now: int)
    requires ClaimOutcome(before, deviceId, claimed, after, now)
    requires claimed.Some?
    ensures claimed.value.data.status == Pending
    ensures after.Keys == before.Keys
    ensures after[claimed.value.id] == claimed.value.data.(status := Running, startedAt := Some(now))
    ensures !IsPendingFor(after, deviceId, claimed.value.id)
    ensures forall k :: k in before && k != claimed.value.id ==> after[k] == before[k]
    ensures forall k :: IsPendingFor(after, deviceId, k) <==> IsPendingFor(before, deviceId, k) && k != claimed.value.id
  {
  }

  /** Two claims in a row for the same device never hand out the same command. */
  lemma SecondClaimDiffers(before: map<string, Command>, deviceId: string, first: Option<ClaimedCommand>,
                           middle: map<string, Command>, second: Option<ClaimedCommand>,
                           after: map<string, Command>, t1: int, t2: int)
    requires ClaimOutcome(before, deviceId, first, middle, t1)
    requires ClaimOutcome(middle, deviceId, second, after, t2)
    requires first.Some? && second.Some?
    ensures second.value.id != first.value.id
  {
    ClaimTakesExactlyOne(before, deviceId, first, middle, t1);
  }

  /** Explicit-id completion does not look at the status: a pending command is completed
      directly, without ever running, and an unknown id creates a document. */
  lemma CompleteByIdIgnoresStatus(cmds: map<string, Command>, id: string, now: int, ref: nat)
    ensures id in CompleteUpdate(cmds, id, now, ref)
    ensures CompleteUpdate(cmds, id, now, ref)[id].status == Completed
    ensures CompleteUpdate(cmds, id, now, ref)[id].completedAt == Some(now)
    ensures CompleteUpdate(cmds, id, now, ref)[id].resultRef == Some(ref)
    ensures id in cmds ==> CompleteUpdate(cmds, id, now, ref)[id].startedAt == cmds[id].startedAt
    ensures id in cmds ==> CompleteUpdate(cmds, id, now, ref)[id].deviceId == cmds[id].deviceId
    ensures id !in cmds ==> CompleteUpdate(cmds, id, now, ref)[id].deviceId.None?
    ensures CompleteUpdate(cmds, id, now, ref).Keys == cmds.Keys + {id}
    ensures forall k :: k in cmds && k != id ==> CompleteUpdate(cmds, id, now, ref)[k] == cmds[k]
  {
  }

  /** Order of the lifecycle; an unrecognised status counts as earliest. */
  function StatusRank(s: CommandStatus): nat {
    match s
    case OtherStatus(_) => 0
    case Pending => 1
    case Running => 2
    case Completed => 3
  }

  /** No status moves backwards. */
  predicate NeverReverts(before: map<string, Command>, after: map<string, Command>) {
    forall k :: k in before ==> k in after && StatusRank(before[k].status) <= StatusRank(after[k].status)
  }

  /** Neither claiming nor either kind of completion ever reverts a command to an earlier
      status, even though explicit-id completion may skip `running`. */
  lemma TransitionsNeverRevert(before: map<string, Command>, deviceId: string, claimed: Option<ClaimedCommand>,
                               commandId: Option<string>, ref: nat, completed: Option<string>,
                               afterClaim: map<string, Command>, afterCompletion: map<string, Command>, now: int)
    ensures ClaimOutcome(before, deviceId, claimed, afterClaim, now) ==> NeverReverts(before, afterClaim)
    ensures CompletionOutcome(before, deviceId, commandId, ref, completed, afterCompletion, now) ==>
      NeverReverts(before, afterCompletion)
  {
  }

  /** The command collection of the store, with the store's clock for server timestamps. */
  class CommandQueue {
    var commands: map<string, Command>
    var clock: int

    constructor (initial: map<string, Command>, now: int)
      ensures commands == initial && clock == now
    {
      commands := initial;
      clock := now;
    }

    /** `FieldValue.serverTimestamp()`: the next tick of the queue's own clock, later than
        every time this queue has handed out before. */
    method Tick() returns (now: int)
      modifies this`clock
      ensures clock == old(clock) + 1 && now == clock
    {
      clock := clock + 1;
      now := clock;
    }

    /** The claim of `GET /device/commands`: read the oldest pending command of the device
        and mark it running; return the document as it was read. */
    method ClaimNext(deviceId: string) returns (claimed: Option<ClaimedCommand>)
      modifies this
      ensures ClaimOutcome(old(commands), deviceId, claimed, commands, clock)
      ensures claimed.None? ==> clock == old(clock)
      ensures claimed.Some? ==> clock == old(clock) + 1
    {
      if !HasPending(commands, deviceId) {
        return None;
      }
      OldestPendingExists(commands, deviceId);
      var id :| id in commands && IsOldestPending(commands, deviceId, id);
      var payload := ClaimedCommand(id, commands[id]);
      var now := Tick();
      commands := commands[id := commands[id].(status := Running, startedAt := Some(now))];
      claimed := Some(payload);
    }

    /** Completion with an explicit command id: merge into, or create, that document. */
    method CompleteById(commandId: string, ref: nat)
      modifies this
      ensures clock == old(clock) + 1
      ensures commands == CompleteUpdate(old(commands), commandId, clock, ref)
    {
      var now := Tick();
      var done :=
        if commandId in commands then commands[commandId].(status := Completed, completedAt := Some(now), resultRef := Some(ref))
        else Command(None, Completed, None, None, Some(now), Some(ref));
      commands := commands[commandId := done];
    }

    /** The fallback completion: the device's running command with the latest start. */
    method CompleteNewestRunning(deviceId: string, ref: nat) returns (completed: Option<string>)
      modifies this
      ensures CompletionOutcome(old(commands), deviceId, None, ref, completed, commands, clock)
      ensures completed.None? ==> clock == old(clock)
      ensures completed.Some? ==> clock == old(clock) + 1
    {
      if !HasRunning(commands, deviceId) {
        return None;
      }
      NewestRunningExists(commands, deviceId);
      var id :| id in commands && IsNewestRunning(commands, deviceId, id);
      CompleteById(id, ref);
      completed := Some(id);
    }

    /** The completion step of both upload handlers: by id when the request carries a
        truthy `commandId`, otherwise the fallback. */
    method Complete(deviceId: string, commandId: Option<string>, ref: nat) returns (completed: Option<string>)
      modifies this
      ensures CompletionOutcome(old(commands), deviceId, if Truthy(commandId) then commandId else None,
                                ref, completed, commands, clock)
      ensures clock == old(clock) + (if completed.Some? then 1 else 0)
    {
      if Truthy(commandId) {
        CompleteById(commandId.value, ref);
        completed := commandId;
      } else {
        completed := CompleteNewestRunning(deviceId, ref);
      }
    }
  }
}
