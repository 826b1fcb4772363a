/**
 The `Singleton` metaclass of `service_base/connection.py`: one class-level
 map from class to instance, shared by every class that uses the metaclass.
 Calling a class constructs and caches an instance only when the class has
 none yet; otherwise the cached instance is returned and the call's
 arguments are ignored. `clear` drops a class's entry, silently when there
 is none.

 The cache is a value here: each operation takes the map and returns the new
 one. The constructor (`super().__call__`) is a parameter; None stands for a
 constructor that raised, in which case nothing is cached and the exception
 reaches the caller.
 */
module Connection {
  import opened Base

  /** What a call of the class gives its caller. */
  datatype CallOutcome<I> = Instance(value: I) | ConstructorRaised

  /** The cache after a call, and what the call gave back. */
  datatype Called<C, I> = Called(instances: map<C, I>, outcome: CallOutcome<I>)

  /** `Singleton.__call__`. */
  function Call<C(!new), A, I>(instances: map<C, I>, cls: C, args: A, construct: (C, A) -> Option<I>): (r: Called<C, I>)
    ensures cls in instances ==> r == Called(instances, Instance(instances[cls]))
    ensures r.outcome.Instance? ==> cls in r.instances && r.instances[cls] == r.outcome.value
    ensures r.outcome.ConstructorRaised? <==> cls !in instances && construct(cls, args).None?
    ensures r.outcome.ConstructorRaised? ==> r.instances == instances
    ensures cls !in instances && construct(cls, args).Some? ==>
      r == Called(instances[cls := construct(cls, args).value], Instance(construct(cls, args).value))
    ensures forall k :: k != cls ==> (k in r.instances <==> k in instances)
    ensures forall k :: k != cls && k in instances ==> r.instances[k] == instances[k]
  {
    if cls in instances then Called(instances, Instance(instances[cls]))
    else
      match construct(cls, args)
      case None => Called(instances, ConstructorRaised)
      case Some(obj) => Called(instances[cls := obj], Instance(obj))
  }

  /** `Singleton.clear`. */
  function Clear<C(!new), I>(instances: map<C, I>, cls: C): (r: map<C, I>)
    ensures cls !in r
    ensures cls !in instances ==> r == instances
    ensures forall k :: k != cls ==> (k in r <==> k in instances)
    ensures forall k :: k != cls && k in r ==> r[k] == instances[k]
  {
    instances - {cls}
  }

  /** Once a class has an instance, every later call returns that same
      instance, whatever its arguments and whatever the constructor would
      do, and leaves the cache as it was. */
  lemma LaterCallsIgnoreArguments<C(!new), A, I>(instances: map<C, I>, cls: C, first: A, later: A,
                                           construct: (C, A) -> Option<I>, other: (C, A) -> Option<I>)
    requires Call(instances, cls, first, construct).outcome.Instance?
    ensures var r1 := Call(instances, cls, first, construct);
      var r2 := Call(r1.instances, cls, later, other);
      && r2.instances == r1.instances
      && r2.outcome == r1.outcome
  {
  }

  /** After `clear`, the next call runs the constructor again with that
      call's own arguments. */
  lemma ClearThenCallConstructsAfresh<C(!new), A, I>(instances: map<C, I>, cls: C, args: A, construct: (C, A) -> Option<I>)
    ensures var r := Call(Clear(instances, cls), cls, args, construct);
      && (r.outcome.Instance? <==> construct(cls, args).Some?)
      && (r.outcome.Instance? ==> r.outcome.value == construct(cls, args).value)
  {
  }

  /** Calls and clears on one class never touch another class's entry: the
      frame clauses of `Call` and `Clear`, restated together as the "one
      instance per class" property. */
  lemma EntriesArePerClass<C(!new), A, I>(instances: map<C, I>, cls: C, other: C, args: A, construct: (C, A) -> Option<I>)
    requires cls != other
    ensures (other in Call(instances, cls, args, construct).instances <==> other in instances)
    ensures (other in Clear(instances, cls) <==> other in instances)
    ensures other in instances ==>
      && Call(instances, cls, args, construct).instances[other] == instances[other]
      && Clear(instances, cls)[other] == instances[other]
  {
  }

  /** The classes that use the metaclass in this service. */
  datatype ServiceClass = ResourceLockerConnection

  /** A lock-registry client, identified by the configuration it was built
      from. */
  datatype LockerClient = LockerClient(confFile: string)

  /** `ResourceLockerConnection(...)`: `conf_file` is a required argument, so
      a call without it raises before any instance exists. */
  function BuildClient(cls: ServiceClass, confFile: Option<string>): Option<LockerClient>
  {
    if confFile.Some? then Some(LockerClient(confFile.value)) else None
  }

  /** The start-up order of the service: importing the utilities builds the
      client from the configuration, and the service module's own call
      without arguments then gets that same client. The argument-less call
      on its own, with nothing cached, would raise. */
  lemma ClientBuiltOnceAtStartup(conf: string)
    ensures var first := Call(map[], ResourceLockerConnection, Some(conf), BuildClient);
      var second := Call(first.instances, ResourceLockerConnection, None, BuildClient);
      && first.outcome == Instance(LockerClient(conf))
      && second.outcome == first.outcome
      && second.instances == map[ResourceLockerConnection := LockerClient(conf)]
    ensures Call(map[], ResourceLockerConnection, None, BuildClient).outcome == ConstructorRaised
  {
  }
}
