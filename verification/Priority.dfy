/**
 canBeAddedToStorage: which API group may own a plural, by the priority of its APIService.
 */
module Priority {
  import opened Wrappers
  import opened Strings

  datatype GroupPriority = GroupPriority(groupVersionName: string, minimum: int)

  type Entries = map<string, GroupPriority>

  /** The APIServices the lister knows, by name "version.group". */
  type ApiServices = map<string, int>

  function ServiceName(group: string, version: string): string {
    version + "." + group
  }

  /** The name is the version, a dot, and the group, as APIServices are named. */
  lemma ServiceNameParts(group: string, version: string)
    requires Free(version, '.')
    ensures Before(ServiceName(group, version), '.') == version
    ensures ServiceName(group, version)[|version| + 1..] == group
  {
    assert ServiceName(group, version) == version + ['.'] + group;
    BeforeSeparator(version, '.', group);
  }

  /** One call: a resource and what the lookup of its APIService returned. */
  datatype Call = Call(resource: string, found: Option<GroupPriority>)

  function CallFor(group: string, version: string, resource: string, services: ApiServices): Call {
    var name := ServiceName(group, version);
    Call(resource, if name in services then Some(GroupPriority(name, services[name])) else None)
  }

  predicate Outranked(entries: Entries, c: Call) {
    c.found.Some? && c.resource in entries && entries[c.resource].minimum > c.found.value.minimum
  }

  function Entered(entries: Entries, c: Call): Entries {
    if c.found.Some? && !Outranked(entries, c) then entries[c.resource := c.found.value] else entries
  }

  /** The process-wide map and its lock. */
  class ResourcePriorities {
    var entries: Entries

    constructor ()
      ensures entries == map[]
    {
      entries := map[];
    }

    method CanBeAddedToStorage(group: string, version: string, resource: string, services: ApiServices)
      returns (ok: bool)
      modifies this
      ensures var c := CallFor(group, version, resource, services);
        ok == !Outranked(old(entries), c) && entries == Entered(old(entries), c)
    {
      var name := ServiceName(group, version);
      if name !in services {
        return true;
      }
      if resource in entries && entries[resource].minimum > services[name] {
        return false;
      }
      entries := entries[resource := GroupPriority(name, services[name])];
      return true;
    }
  }

  // ---------------------------------------------------------------- histories

  function After(calls: seq<Call>): Entries {
    if calls == [] then map[] else Entered(After(calls[..|calls| - 1]), calls[|calls| - 1])
  }

  /** Call i found an APIService for the resource. */
  predicate Ranked(calls: seq<Call>, i: int, resource: string) {
    0 <= i < |calls| && calls[i].resource == resource && calls[i].found.Some?
  }

  /** Call i attains the maximum over all ranked calls for the resource, and no later call does. */
  ghost predicate LatestMaximum(calls: seq<Call>, i: int, resource: string) {
    && Ranked(calls, i, resource)
    && (forall k | Ranked(calls, k, resource) :: calls[k].found.value.minimum <= calls[i].found.value.minimum)
    && (forall k | Ranked(calls, k, resource) && i < k :: calls[k].found.value.minimum < calls[i].found.value.minimum)
  }

  /** After any history, a resource has an entry iff it was ever ranked, and the entry is the latest maximum. */
  lemma {:induction false} EntryIsLatestMaximum(calls: seq<Call>, resource: string)
    ensures resource in After(calls) <==> exists i :: Ranked(calls, i, resource)
    ensures resource in After(calls) ==>
      exists i :: LatestMaximum(calls, i, resource) && After(calls)[resource] == calls[i].found.value
  {
    if calls != [] {
      var n := |calls| - 1;
      var before := calls[..n];
      EntryIsLatestMaximum(before, resource);
      assert forall k | k != n :: Ranked(calls, k, resource) <==> Ranked(before, k, resource);
      if Ranked(calls, n, resource) && !Outranked(After(before), calls[n]) {
        assert LatestMaximum(calls, n, resource);
      } else if resource in After(before) {
        var i :| LatestMaximum(before, i, resource) && After(before)[resource] == before[i].found.value;
        assert LatestMaximum(calls, i, resource);
      }
    }
  }

  /** A call is accepted iff its lookup failed or its priority reaches every earlier ranked priority. */
  lemma AcceptedExactly(calls: seq<Call>, c: Call)
    ensures !Outranked(After(calls), c)
       <==> || c.found.None?
            || forall k | Ranked(calls, k, c.resource) ::
                 calls[k].found.value.minimum <= c.found.value.minimum
  {
    EntryIsLatestMaximum(calls, c.resource);
  }

  /** Entries are never removed and never decrease. */
  lemma {:induction false} EntriesNeverDecrease(calls: seq<Call>, more: seq<Call>, resource: string)
    requires resource in After(calls)
    ensures resource in After(calls + more)
    ensures After(calls)[resource].minimum <= After(calls + more)[resource].minimum
  {
    if more == [] {
      assert calls + more == calls;
    } else {
      var all := calls + more;
      assert all[..|all| - 1] == calls + more[..|more| - 1];
      EntriesNeverDecrease(calls, more[..|more| - 1], resource);
    }
  }
}
