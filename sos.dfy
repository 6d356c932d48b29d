/**
 * cmds/sos/sosService.go: the name-to-port registry of the SOS service. The read-write
 * lock only serialises the four operations, so each one is modelled as one atomic step.
 */
module Sos {
  import opened Wrappers

  /** Go's `uint`, 64 bits wide on the platforms the service runs on. */
  newtype Uint = x: int | 0 <= x < 0x1_0000_0000_0000_0000

  /** `Registry`: a map from service name to port. */
  type Registry = map<string, Uint>

  /** The text of the error Read returns for a name that is not registered. */
  function NotInRegistry(serviceName: string): string {
    serviceName + " is not in the registry"
  }

  /** The text of the error Register returns for a name that is already registered. */
  function AlreadyExists(serviceName: string): string {
    serviceName + " already exists"
  }

  // ---------------------------------------------------------------------------------
  // The operations as functions of the registry.

  /** What Read returns: the port and no error, or port 0 and the not-registered error. */
  function ReadOf(r: Registry, serviceName: string): (Uint, Option<string>) {
    if serviceName in r then (r[serviceName], None) else (0, Some(NotInRegistry(serviceName)))
  }

  /** The registry after Register: unchanged when the name is taken. */
  function Registered(r: Registry, serviceName: string, portNum: Uint): Registry {
    if serviceName in r then r else r[serviceName := portNum]
  }

  /** The error Register returns. */
  function RegisterError(r: Registry, serviceName: string): Option<string> {
    if serviceName in r then Some(AlreadyExists(serviceName)) else None
  }

  /** The registry after Unregister. */
  function Unregistered(r: Registry, serviceName: string): Registry {
    r - {serviceName}
  }

  // ---------------------------------------------------------------------------------
  // The service.

  class SosService {
    var registry: Registry

    /** A service with an empty registry, as `startServer` makes it with `make(Registry)`. */
    constructor ()
      ensures registry == map[]
    {
      registry := map[];
    }

    /** Read, lines 19-27. */
    method Read(serviceName: string) returns (port: Uint, err: Option<string>)
      ensures (port, err) == ReadOf(registry, serviceName)
    {
      if serviceName !in registry {
        return 0, Some(NotInRegistry(serviceName));
      }
      port, err := registry[serviceName], None;
    }

    /** Register, lines 29-38. */
    method Register(serviceName: string, portNum: Uint) returns (err: Option<string>)
      modifies this
      ensures registry == Registered(old(registry), serviceName, portNum)
      ensures err == RegisterError(old(registry), serviceName)
    {
      if serviceName in registry {
        return Some(AlreadyExists(serviceName));
      }
      registry := registry[serviceName := portNum];
      err := None;
    }

    /** Unregister, lines 40-44. */
    method Unregister(serviceName: string)
      modifies this
      ensures registry == Unregistered(old(registry), serviceName)
    {
      registry := registry - {serviceName};
    }

    /**
     * SnapshotRegistry, lines 46-54: copies the registry entry by entry, in whatever order
     * the names come.
     */
    method SnapshotRegistry() returns (snapshot: Registry)
      ensures snapshot == registry
    {
      snapshot := map[];
      var names := registry.Keys;
      while names != {}
        invariant names <= registry.Keys
        invariant snapshot.Keys == registry.Keys - names
        invariant forall name :: name in snapshot ==> snapshot[name] == registry[name]
        decreases |names|
      {
        var name :| name in names;
        snapshot := snapshot[name := registry[name]];
        names := names - {name};
      }
    }
  }

  // ---------------------------------------------------------------------------------
  // What the operations promise.

  /** Read finds exactly the registered names, with their ports. */
  lemma ReadSpec(r: Registry, serviceName: string)
    ensures ReadOf(r, serviceName).1.None? <==> serviceName in r
    ensures serviceName in r ==> ReadOf(r, serviceName).0 == r[serviceName]
    ensures serviceName !in r ==> ReadOf(r, serviceName) == (0, Some(NotInRegistry(serviceName)))
  {
  }

  /**
   * Register of a free name succeeds and maps it to the port, touching no other entry; of a
   * taken name it fails and changes nothing.
   */
  lemma RegisterSpec(r: Registry, serviceName: string, portNum: Uint)
    ensures RegisterError(r, serviceName).None? <==> serviceName !in r
    ensures serviceName !in r ==>
      && serviceName in Registered(r, serviceName, portNum)
      && Registered(r, serviceName, portNum)[serviceName] == portNum
    ensures serviceName in r ==> Registered(r, serviceName, portNum) == r
    ensures forall name :: name != serviceName ==>
      (name in Registered(r, serviceName, portNum) <==> name in r)
    ensures forall name :: name != serviceName && name in r ==> Registered(r, serviceName, portNum)[name] == r[name]
  {
  }

  /** After a Register that succeeds, Read returns the registered port. */
  lemma ReadAfterRegister(r: Registry, serviceName: string, portNum: Uint)
    requires RegisterError(r, serviceName).None?
    ensures ReadOf(Registered(r, serviceName, portNum), serviceName) == (portNum, None)
  {
  }

  /** Unregister removes the name and touches no other entry. */
  lemma UnregisterSpec(r: Registry, serviceName: string)
    ensures serviceName !in Unregistered(r, serviceName)
    ensures forall name :: name != serviceName ==> (name in Unregistered(r, serviceName) <==> name in r)
    ensures forall name :: name != serviceName && name in r ==> Unregistered(r, serviceName)[name] == r[name]
    ensures ReadOf(Unregistered(r, serviceName), serviceName).1 == Some(NotInRegistry(serviceName))
  {
  }

  /** Unregister of an absent name changes nothing, so a second Unregister changes nothing. */
  lemma UnregisterIdempotent(r: Registry, serviceName: string)
    ensures serviceName !in r ==> Unregistered(r, serviceName) == r
    ensures Unregistered(Unregistered(r, serviceName), serviceName) == Unregistered(r, serviceName)
  {
    if serviceName !in r {
      assert Unregistered(r, serviceName) == r;
    }
  }

  /** Register of a free name followed by Unregister of it restores the registry. */
  lemma RegisterUnregister(r: Registry, serviceName: string, portNum: Uint)
    requires serviceName !in r
    ensures Unregistered(Registered(r, serviceName, portNum), serviceName) == r
  {
  }

  /** After Unregister, the name is free again: Register of it succeeds. */
  lemma RegisterAfterUnregister(r: Registry, serviceName: string, portNum: Uint)
    ensures RegisterError(Unregistered(r, serviceName), serviceName).None?
    ensures Registered(Unregistered(r, serviceName), serviceName, portNum) == r[serviceName := portNum]
  {
  }
}
