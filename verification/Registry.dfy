/** The session table: an atomic attach-or-create under a cap, and a one-permit notification on every change. */
module Registry {
  import opened Bytes

  type Id = string

  /** Outcome of an attach-or-create; `Created` obliges the caller to spawn the session's task. */
  datatype Bind = Existing(handle: nat) | Created(handle: nat) | Rejected

  /** The table maps an id to the handle of the one session created for it. */
  function BindIn(sessions: map<Id, nat>, cap: nat, id: Id, handle: nat): Bind {
    if id in sessions then Existing(sessions[id])
    else if |sessions| >= cap then Rejected
    else Created(handle)
  }

  function TableAfter(sessions: map<Id, nat>, cap: nat, id: Id, handle: nat): map<Id, nat> {
    if BindIn(sessions, cap, id, handle).Created? then sessions[id := handle] else sessions
  }

  function TableWithout(sessions: map<Id, nat>, id: Id): map<Id, nat> {
    sessions - {id}
  }

  /** What the idle watcher asks. */
  predicate NoSessions(sessions: map<Id, nat>) {
    sessions == map[]
  }

  class Registry {
    var sessions: map<Id, nat>
    const maxSessions: nat
    var nextHandle: nat
    /** Notifications issued so far. */
    ghost var pulses: nat

    ghost predicate Valid()
      reads this
    {
      && |sessions| <= maxSessions
      && (forall id :: id in sessions ==> sessions[id] < nextHandle)
      && forall a, b :: a in sessions && b in sessions && sessions[a] == sessions[b] ==> a == b
    }

    constructor (maxSessions: nat)
      ensures Valid() && sessions == map[] && this.maxSessions == maxSessions && pulses == 0
    {
      this.maxSessions := maxSessions;
      sessions, nextHandle, pulses := map[], 0, 0;
    }

    method AttachOrCreate(id: Id) returns (bind: Bind)
      requires Valid()
      modifies this
      ensures Valid()
      ensures bind == BindIn(old(sessions), maxSessions, id, old(nextHandle))
      ensures sessions == TableAfter(old(sessions), maxSessions, id, old(nextHandle))
      ensures nextHandle == old(nextHandle) + if bind.Created? then 1 else 0
      ensures pulses == old(pulses) + if bind.Created? then 1 else 0
      ensures id in old(sessions) ==> bind == Existing(old(sessions)[id])
    {
      if id in sessions {
        return Existing(sessions[id]);
      }
      if |sessions| >= maxSessions {
        return Rejected;
      }
      bind := Created(nextHandle);
      sessions := sessions[id := nextHandle];
      nextHandle := nextHandle + 1;
      pulses := pulses + 1;
    }

    method Remove(id: Id)
      requires Valid()
      modifies this
      ensures Valid() && sessions == TableWithout(old(sessions), id) && nextHandle == old(nextHandle)
      ensures pulses == old(pulses) + 1
    {
      RemovalShrinks(sessions, id);
      sessions := TableWithout(sessions, id);
      pulses := pulses + 1;
    }
  }

  lemma RemovalShrinks(m: map<Id, nat>, id: Id)
    ensures |TableWithout(m, id)| == if id in m then |m| - 1 else |m|
  {
    var rest := TableWithout(m, id);
    assert rest.Keys == m.Keys - {id};
    assert |rest.Keys| == |rest|;
  }
}
