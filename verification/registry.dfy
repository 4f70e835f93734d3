/**
 * `ServiceManager` (services/mcp/service.rs): the running MCP services, keyed by name. The
 * service handle is a type parameter; the registry is a finite map from names to handles.
 */
module Registry {
  import opened Wrappers

  type Services<S> = map<string, S>

  /** `add_service`: registers `service` under `name`, replacing any entry already there. */
  function AddService<S>(services: Services<S>, name: string, service: S): (r: Services<S>)
    ensures r.Keys == services.Keys + {name}
    ensures name in r && r[name] == service
    ensures forall other :: other in services && other != name ==> other in r && r[other] == services[other]
  {
    services[name := service]
  }

  /** `get_service`: the handle registered under `name`, if any. */
  function GetService<S>(services: Services<S>, name: string): (r: Option<S>)
    ensures r.Some? <==> name in services
    ensures r.Some? ==> r.value == services[name]
  {
    if name in services then Some(services[name]) else None
  }

  /** What `remove_service` leaves, and the handle it takes out. */
  datatype Removed<S> = Removed(services: Services<S>, taken: Option<S>)

  /** `remove_service`: takes the entry for `name` out and returns it; no entry, no change. */
  function RemoveService<S>(services: Services<S>, name: string): (r: Removed<S>)
    ensures r.services.Keys == services.Keys - {name}
    ensures r.taken == GetService(services, name)
    ensures forall other :: other in r.services ==> r.services[other] == services[other]
  {
    Removed(services - {name}, GetService(services, name))
  }

  /**
   * `list_services`: every registered name exactly once, in no particular order (a `HashMap`'s
   * key order). The loop takes out any remaining name until none is left.
   */
  method ListServices<S>(services: Services<S>) returns (names: seq<string>)
    ensures forall i, j :: 0 <= i < j < |names| ==> names[i] != names[j]
    ensures forall n :: n in names <==> n in services
    ensures |names| == |services|
  {
    names := [];
    var left := services.Keys;
    while left != {}
      invariant left <= services.Keys
      invariant forall x :: x in names ==> x in services && x !in left
      invariant forall x :: x in services ==> x in names || x in left
      invariant forall i, j :: 0 <= i < j < |names| ==> names[i] != names[j]
      invariant |names| + |left| == |services|
      decreases |left|
    {
      var n :| n in left;
      names := names + [n];
      left := left - {n};
    }
  }

  // ---------------------------------------------------------------------------------------
  // Properties
  // ---------------------------------------------------------------------------------------

  /** After `add_service(name, s)`, `get_service(name)` returns `s`, even when `name` was taken. */
  lemma GetAfterAdd<S>(services: Services<S>, name: string, service: S)
    ensures GetService(AddService(services, name, service), name) == Some(service)
  {
  }

  /** Adding twice under one name keeps only the second handle. */
  lemma AddReplaces<S>(services: Services<S>, name: string, first: S, second: S)
    ensures AddService(AddService(services, name, first), name, second) == AddService(services, name, second)
  {
  }

  /** After `remove_service(name)`, `get_service(name)` is `None`. */
  lemma GetAfterRemove<S>(services: Services<S>, name: string)
    ensures GetService(RemoveService(services, name).services, name) == None
  {
  }

  /** Removing a name that is not registered returns `None` and changes nothing. */
  lemma RemoveAbsent<S>(services: Services<S>, name: string)
    requires name !in services
    ensures RemoveService(services, name) == Removed(services, None)
  {
    assert services - {name} == services;
  }

  /** Adding and removing under `name` leave every other name's lookup as it was. */
  lemma OthersUnchanged<S>(services: Services<S>, name: string, other: string, service: S)
    requires other != name
    ensures GetService(AddService(services, name, service), other) == GetService(services, other)
    ensures GetService(RemoveService(services, name).services, other) == GetService(services, other)
  {
  }

  /** Removing what was just added restores a registry that did not have the name. */
  lemma RemoveUndoesAdd<S>(services: Services<S>, name: string, service: S)
    requires name !in services
    ensures RemoveService(AddService(services, name, service), name) == Removed(services, Some(service))
  {
    assert services[name := service] - {name} == services;
  }
}
