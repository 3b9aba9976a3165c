/** The Docker daemon as the gateway sees it: a table of container states that other parties may
    change at any moment, and calls that may fail at any moment. */
module Docker {
  import opened Wrappers
  import opened Config

  datatype Status = Running | Exited | Dead | Other(text: string)

  /** Containers missing from the table do not exist for the daemon. */
  type World = map<string, Status>

  predicate IsRunning(w: World, name: string) { Lookup(w, name) == Some(Running) }

  /** One call of the daemon's stop or start operation, with the world it was made in. */
  datatype Call = Call(name: string, at: World, ok: bool)

  /** What the daemon and the readiness probes answered to one question about a container. */
  datatype Answer =
    | Inspected(name: string, status: Option<Status>)
    | StartAsked(name: string, ok: bool)
    | StopAsked(name: string, ok: bool)
    | Located(name: string, found: bool)
    | Probed(name: string, ready: bool)

  /** gateway/docker.go. The ghost fields record the history the theorems speak about:
      `still` stays true while nobody but the gateway changes the world, `candid` while every
      inspection of an existing container is answered; `heard` lists every answer given. */
  class DockerClient {
    var world: World
    ghost var still: bool
    ghost var candid: bool
    ghost var stops: seq<Call>
    ghost var heard: seq<Answer>

    constructor (w: World)
      ensures world == w && still && candid && stops == [] && heard == []
    {
      world, still, candid, stops, heard := w, true, true, [], [];
    }

    /** Crashes, manual commands and scheduled stops: any change of the world, or none. */
    method Drift()
      modifies `world, `still
      ensures still ==> old(still) && world == old(world)
    {
      var w: World := *;
      still := still && w == world;
      world := w;
    }

    /** GetContainerStatus: an error, or the true status. A missing container is an error. */
    method GetContainerStatus(name: string) returns (answer: Option<Status>)
      modifies `world, `still, `candid, `heard
      ensures heard == old(heard) + [Inspected(name, answer)]
      ensures answer.Some? ==> answer == Lookup(world, name)
      ensures still ==> old(still) && world == old(world)
      ensures candid ==> old(candid) && answer == Lookup(world, name)
    {
      Drift();
      answer := Lookup(world, name);
      if * {
        candid := candid && answer == None;
        answer := None;
      }
      heard := heard + [Inspected(name, answer)];
    }

    method StartContainer(name: string) returns (ok: bool, ghost at: World)
      modifies `world, `still, `heard
      ensures still ==> old(still)
      ensures heard == old(heard) + [StartAsked(name, ok)]
      ensures still ==> at == old(world)
      ensures world == if ok then at[name := Running] else at
      ensures ok ==> name in at
    {
      Drift();
      at := world;
      ok := *;
      ok := ok && name in world;
      heard := heard + [StartAsked(name, ok)];
      if ok {
        world := world[name := Running];
      }
    }

    /** GetContainerAddress: whether the container has an address to probe. */
    method GetContainerAddress(name: string) returns (found: bool)
      modifies `heard
      ensures heard == old(heard) + [Located(name, found)]
    {
      found := *;
      heard := heard + [Located(name, found)];
    }

    /** The HTTP or TCP readiness probe. */
    method Probe(name: string) returns (ready: bool)
      modifies `heard
      ensures heard == old(heard) + [Probed(name, ready)]
    {
      ready := *;
      heard := heard + [Probed(name, ready)];
    }

    method StopContainer(name: string) returns (ok: bool, ghost at: World)
      modifies `world, `still, `stops, `heard
      ensures still ==> old(still)
      ensures heard == old(heard) + [StopAsked(name, ok)]
      ensures stops == old(stops) + [Call(name, at, ok)]
      ensures still ==> at == old(world)
      ensures world == if ok && IsRunning(at, name) then at[name := Exited] else at
      ensures ok ==> name in at
    {
      Drift();
      at := world;
      ok := *;
      ok := ok && name in world;
      stops := stops + [Call(name, world, ok)];
      heard := heard + [StopAsked(name, ok)];
      if ok && IsRunning(world, name) {
        world := world[name := Exited];
      }
    }
  }
}
