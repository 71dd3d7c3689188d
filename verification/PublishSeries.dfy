/** Many runs of the pipeline against one world. */
module PublishSeries {
  import opened Base
  import opened HashTree
  import opened TreeReader
  import opened Blossom
  import opened PublishSpec
  import opened PublishLaws
  import opened PublishUploads
  import opened PublishRuns
  import Publish
  import Nhash
  import Closure

  /** No server forges a node of the current tree. */
  ghost predicate NotForgedIn(env: Env, net: Net, v: View) {
    v.manifests != [] ==> NoForgery(env, net, TreeOf(v.manifests[|v.manifests| - 1]))
  }

  /** No server forges, in any run, a node of the tree that the run reads. */
  ghost predicate NotForged(env: Env, steps: seq<Step>, views: seq<View>) {
    && |views| > |steps|
    && forall i :: 0 <= i < |steps| && steps[i].Publishing? ==> NotForgedIn(env, steps[i].net, views[i])
  }

  lemma HistoryStarts(lib: Lib, v: View)
    requires Unannounced(v)
    ensures History(lib, [], [v])
  {
  }

  lemma HistoryExtends(lib: Lib, steps: seq<Step>, views: seq<View>, step: Step, v: View)
    requires History(lib, steps, views) && StepTo(lib, step, views[|views| - 1], v)
    ensures History(lib, steps + [step], views + [v])
  {
    hide StepTo, Unannounced;
  }

  lemma LastStateInv(lib: Lib, steps: seq<Step>, views: seq<View>)
    requires History(lib, steps, views)
    ensures |views| == |steps| + 1 && Inv(lib, views[|views| - 1])
  {
    hide Inv, StepTo, Unannounced;
    EveryStateKeepsInv(lib, steps, views, |steps|);
  }

  lemma LastAvailable(lib: Lib, steps: seq<Step>, views: seq<View>)
    requires History(lib, steps, views)
    ensures |views| == |steps| + 1
    ensures ServersKeptAlong(steps, views) ==> AllAvailable(lib, views[|views| - 1])
  {
    hide AllAvailable, StepTo, Unannounced, ServersKeptAlong;
    if ServersKeptAlong(steps, views) {
      EveryRootAvailable(lib, steps, views, |steps|);
    }
  }

  /** The next run of a history can read its tree, unless a server forges a node of it. */
  lemma CanRead(lib: Lib, steps: seq<Step>, views: seq<View>, net: Net)
    requires History(lib, steps, views)
    requires Lossless(lib.env) && Nhash.LosslessBech32(lib.bech32)
    requires NotForgedIn(lib.env, net, views[|views| - 1])
    ensures Publish.Readable(lib, net, views[|views| - 1])
  {
    hide Inv, Publish.Readable, NoForgery, Lossless, History, TreeOf, Shaped;
    LastStateInv(lib, steps, views);
    LastShaped(lib, views[|views| - 1]);
    NextRunCanRead(lib, net, views[|views| - 1]);
  }

  /** `views` ends in `v` and, if nothing read was forged, is a history of the steps. */
  ghost predicate Recorded(lib: Lib, steps: seq<Step>, views: seq<View>, v: View) {
    && |views| == |steps| + 1 && views[|steps|] == v
    && (NotForged(lib.env, steps, views) ==> History(lib, steps, views))
  }

  lemma OneMoreStep(lib: Lib, steps: seq<Step>, views: seq<View>, v: View, step: Step, v': View)
    requires Lossless(lib.env) && Nhash.LosslessBech32(lib.bech32) && Recorded(lib, steps, views, v)
    requires step.Publishing? && Publish.Readable(lib, step.net, v) ==> Run(lib, step.cfg, v, v', step.log)
    requires step.Outside? ==> OthersUpload(v, v')
    ensures Recorded(lib, steps + [step], views + [v'], v')
  {
    hide NotForgedIn, History, Lossless, Publish.Readable, Run, OthersUpload;
    if NotForged(lib.env, steps + [step], views + [v']) {
      assert forall i :: 0 <= i < |steps| ==> (steps + [step])[i] == steps[i] && (views + [v'])[i] == views[i];
      assert (steps + [step])[|steps|] == step && (views + [v'])[|steps|] == views[|steps|];
      if step.Publishing? {
        CanRead(lib, steps, views, step.net);
      }
      HistoryExtends(lib, steps, views, step, v');
    }
  }

  /** Others store blobs. */
  method StoreOutside(world: Publish.World, blobs: seq<(Server, Bytes)>)
    modifies world.cluster
    ensures OthersUpload(old(world.View()), world.View())
  {
    for i := 0 to |blobs|
      invariant Grows(old(world.cluster.held), world.cluster.held)
    {
      world.cluster.Store(blobs[i].0, blobs[i].1);
    }
  }

  /** Others store blobs, and then one more run extends a history, as long as nothing it
      reads is forged. */
  method PublishNext(world: Publish.World, lib: Lib, cfg: Config, net: Net, fuel: nat, outside: seq<(Server, Bytes)>,
                     ghost steps: seq<Step>, ghost views: seq<View>)
    returns (ghost log: RunLog, ghost views': seq<View>)
    requires Lossless(lib.env) && Nhash.LosslessBech32(lib.bech32) && Recorded(lib, steps, views, world.View())
    requires Closure.ScannerInRange(Closure.CandidatesOf(cfg.store.listing), cfg.store.scan)
    modifies world, world.cluster
    ensures Recorded(lib, steps + [Outside] + [Publishing(cfg, net, log)], views', world.View()) && views <= views'
  {
    hide Run, Recorded, Lossless, Publish.Readable, Closure.ScannerInRange, Closure.CandidatesOf, Announces,
      OthersUpload;
    ghost var before := world.View();
    StoreOutside(world, outside);
    ghost var between := world.View();
    OneMoreStep(lib, steps, views, before, Outside, between);
    var _, ran, _ := Publish.Publish(world, lib, cfg, net, fuel);
    log := ran;
    OneMoreStep(lib, steps + [Outside], views + [between], between, Publishing(cfg, net, log), world.View());
    views' := views + [between] + [world.View()];
  }

  /** One run to come: its configuration, how its reads will be answered, and what others
      store before it. */
  datatype Invocation = Invocation(cfg: Config, net: Net, outside: seq<(Server, Bytes)>)

  /** The steps of the first runs, each after a time in which others used the servers. */
  ghost function Interleaved(runs: seq<Invocation>, logs: seq<RunLog>): seq<Step>
    requires |logs| <= |runs|
  {
    if logs == [] then [] else
      var n := |logs| - 1;
      Interleaved(runs, logs[..n]) + [Outside] + [Publishing(runs[n].cfg, runs[n].net, logs[n])]
  }

  lemma InterleavedPush(runs: seq<Invocation>, logs: seq<RunLog>, log: RunLog)
    requires |logs| < |runs|
    ensures Interleaved(runs, logs + [log]) ==
      Interleaved(runs, logs) + [Outside] + [Publishing(runs[|logs|].cfg, runs[|logs|].net, log)]
  {
    assert (logs + [log])[..|logs|] == logs;
  }

  ghost predicate Scannable(run: Invocation) {
    Closure.ScannerInRange(Closure.CandidatesOf(run.cfg.store.listing), run.cfg.store.scan)
  }

  /** Running the pipeline any number of times against servers holding anything, from before
      the first root, with others storing blobs between the runs and whatever fails, makes a
      history, unless a server forges a node of a tree some run reads; so every theorem
      about histories holds of the world it leaves. */
  method PublishAll(world: Publish.World, lib: Lib, runs: seq<Invocation>, fuel: nat)
    returns (ghost logs: seq<RunLog>, ghost views: seq<View>)
    requires Unannounced(world.View()) && Lossless(lib.env) && Nhash.LosslessBech32(lib.bech32)
    requires forall i :: 0 <= i < |runs| ==> Scannable(runs[i])
    modifies world, world.cluster
    ensures |logs| == |runs| && views != [] && views[0] == old(world.View()) && views[|views| - 1] == world.View()
    ensures
      var steps := Interleaved(runs, logs);
      NotForged(lib.env, steps, views) ==>
        && History(lib, steps, views) && Inv(lib, world.View())
        && (ServersKeptAlong(steps, views) ==> AllAvailable(lib, world.View()))
  {
    logs, views := [], [world.View()];
    RecordedStart(lib, world.View());
    hide Lossless, NotForged, Inv, AllAvailable, ServersKeptAlong, History, Unannounced, Recorded;
    for i := 0 to |runs|
      invariant |logs| == i && views != [] && views[0] == old(world.View())
      invariant Recorded(lib, Interleaved(runs, logs), views, world.View())
    {
      hide Interleaved;
      ghost var steps := Interleaved(runs, logs);
      ghost var log, more;
      log, more := PublishNext(world, lib, runs[i].cfg, runs[i].net, fuel, runs[i].outside, steps, views);
      InterleavedPush(runs, logs, log);
      assert more[0] == views[0];
      logs, views := logs + [log], more;
    }
    RecordedLaws(lib, Interleaved(runs, logs), views, world.View());
  }

  lemma RecordedStart(lib: Lib, v: View)
    requires Unannounced(v)
    ensures Recorded(lib, [], [v], v)
  {
    hide Unannounced, NotForged;
    HistoryStarts(lib, v);
  }

  lemma RecordedLaws(lib: Lib, steps: seq<Step>, views: seq<View>, v: View)
    requires Recorded(lib, steps, views, v)
    ensures views != [] && views[|views| - 1] == v
    ensures NotForged(lib.env, steps, views) ==>
      && History(lib, steps, views) && Inv(lib, v)
      && (ServersKeptAlong(steps, views) ==> AllAvailable(lib, v))
  {
    hide NotForged, Inv, AllAvailable, ServersKeptAlong, History;
    if NotForged(lib.env, steps, views) {
      LastStateInv(lib, steps, views);
      LastAvailable(lib, steps, views);
    }
  }
}
