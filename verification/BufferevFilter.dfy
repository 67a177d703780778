/** BEV_SUSPEND_*: why a bufferevent does not read, or write, although it is enabled. */
module Suspension {
  datatype Reason = Watermark | Bandwidth | GroupBandwidth | Lookup | FiltRead
}

/** Stacked filtering bufferevents: suspending reads on any layer stops the socket at the bottom. */
module BufferevFilter {
  import opened Suspension

  /** The read half of a bufferevent: EV_READ in `enabled`, and the reasons why it is suspended. */
  datatype Layer = Layer(enabled: bool, readSuspended: set<Reason>) {
    /** Nothing keeps this layer from passing reads on. */
    predicate Active() {
      enabled && readSuspended == {}
    }

    /** The reasons that do not come from the layer above. */
    function Own(): set<Reason> {
      readSuspended - {FiltRead}
    }
  }

  /** What layer `i` has told the one below, or the socket: to read, or not to. */
  ghost predicate Told(ls: seq<Layer>, reading: bool, i: nat, on: bool)
    requires i < |ls|
  {
    if i == 0 then reading == on else (FiltRead !in ls[i - 1].readSuspended) == on
  }

  /** The first `n` layers have told the layers below them whether they are active. */
  ghost predicate Settled(ls: seq<Layer>, reading: bool, n: nat)
    requires n <= |ls|
  {
    forall i | 0 <= i < n :: Told(ls, reading, i, ls[i].Active())
  }

  /** Layers up to `n` keep what is their own, and layers from `n` on are as they were. */
  ghost predicate Kept(was: seq<Layer>, now: seq<Layer>, n: nat)
    requires n <= |was| == |now|
  {
    && (forall i | 0 <= i < n :: now[i].enabled == was[i].enabled && now[i].Own() == was[i].Own())
    && now[n..] == was[n..]
  }

  lemma KeptOne(was: seq<Layer>, mid: seq<Layer>, l: Layer, i: nat)
    requires i < |was| == |mid| && Kept(was, mid, i)
    ensures mid[i] == was[i] && forall j | i <= j < |was| :: mid[j] == was[j]
    ensures forall j | 0 <= j < i :: mid[i := l][j] == mid[j]
  {
    assert mid[i..][0] == was[i..][0];
    forall j | i <= j < |was| ensures mid[j] == was[j] {
      assert mid[i..][j - i] == was[i..][j - i];
    }
  }

  /** A socket bufferevent and the filters on top of it, from the bottom up. */
  class FilterStack {
    var layers: seq<Layer>
    /** The event that reads from the socket is pending. */
    var reading: bool

    /** A socket bufferevent on its own. */
    constructor ()
      ensures InOrder() && layers == [Layer(false, {})]
    {
      layers, reading := [Layer(false, {})], false;
    }

    /**
     * The socket is read if and only if the bottom layer is active, and a layer carries the filter's
     * reason if and only if the layer above is not active.
     */
    ghost predicate InOrder()
      reads this
    {
      layers != [] && Settled(layers, reading, |layers|) && FiltRead !in layers[|layers| - 1].readSuspended
    }

    /** be_ops->disable for reads: the socket's own, or be_filter_disable. */
    method BackendDisable(i: nat)
      requires i < |layers| && Settled(layers, reading, i)
      modifies this
      ensures |layers| == |old(layers)| && Kept(old(layers), layers, i)
      ensures Settled(layers, reading, i) && Told(layers, reading, i, false)
      decreases i, 0
    {
      if i == 0 {
        reading := false;
      } else {
        Suspend(i - 1, {FiltRead});
      }
    }

    /** be_ops->enable for reads: the socket's own, or be_filter_enable. */
    method BackendEnable(i: nat)
      requires i < |layers| && Settled(layers, reading, i)
      modifies this
      ensures |layers| == |old(layers)| && Kept(old(layers), layers, i)
      ensures Settled(layers, reading, i) && Told(layers, reading, i, true)
      decreases i, 0
    {
      if i == 0 {
        reading := true;
      } else {
        Unsuspend(i - 1, {FiltRead});
      }
    }

    /**
     * bufferevent_suspend_read_. The layers up to this one are in order afterwards if and only if it is
     * suspended or disabled now, that is, unless no reason is given.
     */
    method Suspend(i: nat, what: set<Reason>)
      requires i < |layers| && Settled(layers, reading, i + 1)
      modifies this
      ensures |layers| == |old(layers)|
      ensures layers[i] == Layer(old(layers)[i].enabled, old(layers)[i].readSuspended + what)
      ensures Kept(old(layers)[i := layers[i]], layers, i)
      ensures Settled(layers, reading, i + 1) <==> (what != {} || !old(layers)[i].Active())
      decreases i, 1
    {
      ghost var was := layers;
      SettledLess(layers, reading, i);
      if layers[i].readSuspended == {} {
        BackendDisable(i);
        KeptOne(was, layers, layers[i], i);
      }
      var l := layers[i].(readSuspended := layers[i].readSuspended + what);
      SettledMore(layers, reading, i, l);
      KeptSet(was, layers, i, l);
      layers := layers[i := l];
    }

    /** bufferevent_unsuspend_read_ */
    method Unsuspend(i: nat, what: set<Reason>)
      requires i < |layers| && Settled(layers, reading, i + 1)
      modifies this
      ensures |layers| == |old(layers)|
      ensures layers[i] == Layer(old(layers)[i].enabled, old(layers)[i].readSuspended - what)
      ensures Kept(old(layers)[i := layers[i]], layers, i)
      ensures Settled(layers, reading, i + 1)
      decreases i, 1
    {
      ghost var was := layers;
      SettledLess(layers, reading, i);
      var l := layers[i].(readSuspended := layers[i].readSuspended - what);
      SettledMore(layers, reading, i, l);
      layers := layers[i := l];
      if layers[i].readSuspended == {} && layers[i].enabled {
        ghost var mid := layers;
        SettledSame(was, mid, reading, i);
        BackendEnable(i);
        KeptOne(mid, layers, l, i);
      }
    }

    /** bufferevent_enable for reads */
    method Enable(i: nat)
      requires i < |layers| && Settled(layers, reading, i + 1)
      modifies this
      ensures |layers| == |old(layers)|
      ensures layers[i] == old(layers)[i].(enabled := true)
      ensures Kept(old(layers)[i := layers[i]], layers, i)
      ensures Settled(layers, reading, i + 1)
    {
      ghost var was := layers;
      SettledLess(layers, reading, i);
      var impl := layers[i].readSuspended == {};
      var l := layers[i].(enabled := true);
      SettledMore(layers, reading, i, l);
      SettledSame(layers, layers[i := l], reading, i);
      layers := layers[i := l];
      if impl {
        ghost var mid := layers;
        BackendEnable(i);
        KeptOne(mid, layers, l, i);
      }
    }

    /** bufferevent_disable for reads */
    method Disable(i: nat)
      requires i < |layers| && Settled(layers, reading, i + 1)
      modifies this
      ensures |layers| == |old(layers)|
      ensures layers[i] == old(layers)[i].(enabled := false)
      ensures Kept(old(layers)[i := layers[i]], layers, i)
      ensures Settled(layers, reading, i + 1)
    {
      ghost var was := layers;
      SettledLess(layers, reading, i);
      var l := layers[i].(enabled := false);
      SettledSame(layers, layers[i := l], reading, i);
      layers := layers[i := l];
      ghost var mid := layers;
      BackendDisable(i);
      KeptOne(mid, layers, l, i);
    }

    /** bufferevent_filter_new on top of the stack: reading is off in the new layer, and suspended below. */
    method NewFilter()
      requires InOrder()
      modifies this
      ensures InOrder() && Owns(layers) == Apply(OpNewFilter, Owns(old(layers)))
      ensures
        var n := |old(layers)|;
        && |layers| == n + 1 && layers[n] == Layer(false, {}) && layers[n - 1].enabled
        && layers[n - 1].readSuspended == old(layers)[n - 1].readSuspended + {FiltRead}
        && forall i | 0 <= i < n - 1 ::
           layers[i].enabled == old(layers)[i].enabled && layers[i].Own() == old(layers)[i].Own()
    {
      hide Settled, Kept, Owns;
      var n := |layers|;
      ghost var was := layers;
      OwnsReasons(was);
      Enable(n - 1);
      ghost var mid := layers;
      Suspend(n - 1, {FiltRead});
      ghost var last := layers;
      layers := layers + [Layer(false, {})];
      OwnsStopped(was, mid, last, n - 1);
      OwnsMore(last);
      SettledNew(last, reading);
      OwnsReasons(layers);
    }

    /** be_filter_unlink for the filter on top, which is freed without what is under it. */
    method FreeFilter()
      requires InOrder() && |layers| >= 2
      modifies this
      ensures InOrder() && Owns(layers) == Apply(OpFreeFilter, Owns(old(layers)))
      ensures
        && |layers| == |old(layers)| - 1
        && forall i | 0 <= i < |layers| ::
           layers[i].enabled == old(layers)[i].enabled && layers[i].Own() == old(layers)[i].Own()
    {
      hide Settled, Kept, Owns;
      var n := |layers|;
      ghost var was := layers;
      SettledUpTo(layers, reading, n - 1);
      Unsuspend(n - 2, {FiltRead});
      ghost var now := layers;
      layers := layers[..n - 1];
      SettledTake(now, reading, n - 1);
      OwnsOne(was, now, n - 2, now[n - 2]);
      OwnsFilter(was[n - 2].readSuspended, now[n - 2].readSuspended);
      OwnsReasons(was);
      OwnsTake(was, now, n - 1);
      OwnsReasons(layers);
    }

    /** Any of the calls above, on any layer, made by anyone but a filter. */
    method Do(op: Op)
      requires InOrder() && Allowed(op, |layers|)
      modifies this
      ensures InOrder() && Owns(layers) == Apply(op, Owns(old(layers)))
    {
      hide Settled, Kept, Owns;
      ghost var was, read := layers, reading;
      OwnsReasons(was);
      match op {
        case OpSuspend(i, what) =>
          OwnSets(layers[i].readSuspended, what);
          SettledUpTo(layers, reading, i + 1);
          Suspend(i, what);
          SettledAbove(was, read, layers, reading, i);
          OwnsOne(was, layers, i, layers[i]);
        case OpUnsuspend(i, what) =>
          OwnSets(layers[i].readSuspended, what);
          SettledUpTo(layers, reading, i + 1);
          Unsuspend(i, what);
          SettledAbove(was, read, layers, reading, i);
          OwnsOne(was, layers, i, layers[i]);
        case OpEnable(i) =>
          SettledUpTo(layers, reading, i + 1);
          Enable(i);
          SettledAbove(was, read, layers, reading, i);
          OwnsOne(was, layers, i, layers[i]);
        case OpDisable(i) =>
          SettledUpTo(layers, reading, i + 1);
          Disable(i);
          SettledAbove(was, read, layers, reading, i);
          OwnsOne(was, layers, i, layers[i]);
        case OpNewFilter => NewFilter();
        case OpFreeFilter => FreeFilter();
      }
    }

    /**
     * Any run of such calls: the socket is read if and only if every layer is enabled and all reasons
     * given for it have been taken back.
     */
    method DoAll(ops: seq<Op>)
      requires InOrder() && AllAllowed(ops, |layers|)
      modifies this
      ensures InOrder() && Owns(layers) == Run(ops, Owns(old(layers)))
      ensures reading <==> forall i | 0 <= i < |layers| :: Run(ops, Owns(old(layers)))[i] == Layer(true, {})
      decreases |ops|
    {
      hide Settled, Owns, Allowed;
      OwnsReasons(layers);
      if ops != [] {
        DoAll(ops[..|ops| - 1]);
        OwnsReasons(layers);
        Do(ops[|ops| - 1]);
      }
      OwnsReasons(layers);
      SocketReads(layers, reading);
    }
  }

  datatype Op = OpSuspend(layer: nat, what: set<Reason>) | OpUnsuspend(layer: nat, what: set<Reason>)
              | OpEnable(layer: nat) | OpDisable(layer: nat)
              | OpNewFilter | OpFreeFilter

  /** Reasons are given, and are not the filter's own. */
  ghost predicate Allowed(op: Op, n: nat) {
    match op
    case OpSuspend(i, what) => i < n && what != {} && FiltRead !in what
    case OpUnsuspend(i, what) => i < n && FiltRead !in what
    case OpEnable(i) => i < n
    case OpDisable(i) => i < n
    case OpNewFilter => true
    case OpFreeFilter => n >= 2
  }

  ghost function Layers(ops: seq<Op>, n: nat): nat
    decreases |ops|
  {
    if ops == [] then n else
      var m := Layers(ops[..|ops| - 1], n);
      match ops[|ops| - 1]
      case OpNewFilter => if m == 0 then m else m + 1
      case OpFreeFilter => if m < 2 then m else m - 1
      case _ => m
  }

  ghost predicate AllAllowed(ops: seq<Op>, n: nat)
    decreases |ops|
  {
    ops != [] ==> AllAllowed(ops[..|ops| - 1], n) && Allowed(ops[|ops| - 1], Layers(ops[..|ops| - 1], n))
  }

  /** The layers with the reasons that are their own. */
  ghost function Owns(ls: seq<Layer>): seq<Layer> {
    seq(|ls|, i requires 0 <= i < |ls| => Layer(ls[i].enabled, ls[i].Own()))
  }

  /** What the call means for one layer. */
  ghost function Apply(op: Op, ls: seq<Layer>): seq<Layer> {
    match op
    case OpSuspend(i, what) => if i < |ls| then ls[i := ls[i].(readSuspended := ls[i].readSuspended + what)] else ls
    case OpUnsuspend(i, what) => if i < |ls| then ls[i := ls[i].(readSuspended := ls[i].readSuspended - what)] else ls
    case OpEnable(i) => if i < |ls| then ls[i := ls[i].(enabled := true)] else ls
    case OpDisable(i) => if i < |ls| then ls[i := ls[i].(enabled := false)] else ls
    case OpNewFilter =>
      if ls == [] then ls else ls[|ls| - 1 := ls[|ls| - 1].(enabled := true)] + [Layer(false, {})]
    case OpFreeFilter => if |ls| < 2 then ls else ls[..|ls| - 1]
  }

  ghost function Run(ops: seq<Op>, ls: seq<Layer>): (r: seq<Layer>)
    ensures |r| == Layers(ops, |ls|)
    decreases |ops|
  {
    if ops == [] then ls else Apply(ops[|ops| - 1], Run(ops[..|ops| - 1], ls))
  }

  lemma OwnsOne(was: seq<Layer>, now: seq<Layer>, i: nat, l: Layer)
    requires i < |was| == |now| && Kept(was[i := l], now, i) && now[i] == l
    ensures |Owns(was)| == |was| && Owns(now) == Owns(was)[i := Layer(l.enabled, l.Own())]
  {
    forall j | 0 <= j < |now| ensures Owns(now)[j] == Owns(was)[i := Layer(l.enabled, l.Own())][j] {
      if j > i {
        assert now[i..][j - i] == was[i := l][i..][j - i];
      }
    }
  }

  /** A layer that is enabled and then stopped by the filter has only been enabled. */
  lemma OwnsStopped(was: seq<Layer>, mid: seq<Layer>, last: seq<Layer>, i: nat)
    requires i < |was| == |mid| == |last|
    requires Kept(was[i := mid[i]], mid, i) && mid[i] == was[i].(enabled := true)
    requires Kept(mid[i := last[i]], last, i)
    requires last[i] == Layer(mid[i].enabled, mid[i].readSuspended + {FiltRead})
    ensures |Owns(was)| == |was| && Owns(last) == Owns(was)[i := Owns(was)[i].(enabled := true)]
  {
    hide Kept, Owns;
    OwnsOne(was, mid, i, mid[i]);
    OwnsOne(mid, last, i, last[i]);
    OwnsReasons(was);
    OwnsFilter(mid[i].readSuspended, last[i].readSuspended);
    var l := Layer(true, was[i].Own());
    assert Owns(mid) == Owns(was)[i := l] && Owns(last) == Owns(mid)[i := l];
  }

  lemma OwnsTake(was: seq<Layer>, now: seq<Layer>, n: nat)
    requires 0 < n < |was| == |now| == |Owns(was)|
    requires Owns(now) == Owns(was)[n - 1 := Layer(now[n - 1].enabled, now[n - 1].Own())]
    requires Owns(was)[n - 1] == Layer(now[n - 1].enabled, now[n - 1].Own())
    ensures Owns(now[..n]) == Owns(was)[..n]
  {
    forall j | 0 <= j < n ensures Owns(now[..n])[j] == Owns(was)[j] {
      assert Owns(now)[j] == Owns(was)[j];
    }
  }

  lemma SettledTake(ls: seq<Layer>, reading: bool, n: nat)
    requires n <= |ls| && Settled(ls, reading, n)
    ensures Settled(ls[..n], reading, n)
  {
    forall j | 0 <= j < n ensures Told(ls[..n], reading, j, ls[..n][j].Active()) {
      assert Told(ls, reading, j, ls[j].Active());
    }
  }

  lemma OwnSets(a: set<Reason>, what: set<Reason>)
    requires FiltRead !in what
    ensures (a + what) - {FiltRead} == (a - {FiltRead}) + what
    ensures (a - what) - {FiltRead} == (a - {FiltRead}) - what
  {
  }

  lemma OwnsMore(ls: seq<Layer>)
    ensures Owns(ls + [Layer(false, {})]) == Owns(ls) + [Layer(false, {})]
  {
    assert Layer(false, {}).Own() == {};
  }

  lemma OwnsFilter(a: set<Reason>, b: set<Reason>)
    requires b == a + {FiltRead} || b == a - {FiltRead}
    ensures a - {FiltRead} == b - {FiltRead}
  {
  }

  lemma OwnsReasons(ls: seq<Layer>)
    ensures |Owns(ls)| == |ls| && forall i | 0 <= i < |ls| :: Owns(ls)[i] == Layer(ls[i].enabled, ls[i].Own())
  {
  }

  lemma SettledUpTo(ls: seq<Layer>, reading: bool, n: nat)
    requires n <= |ls| && Settled(ls, reading, |ls|)
    ensures Settled(ls, reading, n)
  {
  }

  /** The layers above a changed one do not notice, if the filter's reason has not changed there. */
  lemma SettledAbove(was: seq<Layer>, read: bool, now: seq<Layer>, reading: bool, i: nat)
    requires i < |was| == |now| && Settled(was, read, |was|) && Settled(now, reading, i + 1)
    requires Kept(was[i := now[i]], now, i) && (FiltRead in now[i].readSuspended <==> FiltRead in was[i].readSuspended)
    ensures Settled(now, reading, |now|)
    ensures FiltRead in now[|now| - 1].readSuspended <==> FiltRead in was[|was| - 1].readSuspended
  {
    forall j | i < j < |now| ensures now[j] == was[j] {
      assert now[i..][j - i] == was[i := now[i]][i..][j - i];
    }
    forall j | 0 <= j < |now| ensures Told(now, reading, j, now[j].Active()) {
      if j > i {
        assert Told(was, read, j, was[j].Active());
      }
    }
  }

  /** A new layer, which is not enabled, on top of one that carries the filter's reason. */
  lemma SettledNew(ls: seq<Layer>, reading: bool)
    requires ls != [] && Settled(ls, reading, |ls|) && FiltRead in ls[|ls| - 1].readSuspended
    ensures Settled(ls + [Layer(false, {})], reading, |ls| + 1)
  {
    var ls' := ls + [Layer(false, {})];
    forall j | 0 <= j < |ls'| ensures Told(ls', reading, j, ls'[j].Active()) {
      if j < |ls| {
        assert Told(ls, reading, j, ls[j].Active());
      }
    }
  }

  /** A layer is active if and only if it and all above it are enabled and have no reasons of their own. */
  lemma {:induction false} ActiveAbove(ls: seq<Layer>, reading: bool, i: nat)
    requires i < |ls| && Settled(ls, reading, |ls|) && FiltRead !in ls[|ls| - 1].readSuspended
    ensures ls[i].Active() <==> forall j | i <= j < |ls| :: Owns(ls)[j] == Layer(true, {})
    decreases |ls| - i
  {
    var l := ls[i];
    assert Owns(ls)[i] == Layer(l.enabled, l.Own());
    if i < |ls| - 1 {
      ActiveAbove(ls, reading, i + 1);
      assert Told(ls, reading, i + 1, ls[i + 1].Active());
    }
    if FiltRead !in l.readSuspended {
      assert l.Own() == l.readSuspended;
    }
  }

  /** The socket is read if and only if no layer has anything against it. */
  lemma SocketReads(ls: seq<Layer>, reading: bool)
    requires ls != [] && Settled(ls, reading, |ls|) && FiltRead !in ls[|ls| - 1].readSuspended
    ensures reading <==> forall i | 0 <= i < |ls| :: Owns(ls)[i] == Layer(true, {})
  {
    ActiveAbove(ls, reading, 0);
    assert Told(ls, reading, 0, ls[0].Active());
  }

  lemma SettledLess(ls: seq<Layer>, reading: bool, i: nat)
    requires i < |ls| && Settled(ls, reading, i + 1)
    ensures Settled(ls, reading, i) && Told(ls, reading, i, ls[i].Active())
  {
  }

  /** Changing layer `i` does not matter to what the layers below have told. */
  lemma SettledSame(ls: seq<Layer>, ls': seq<Layer>, reading: bool, i: nat)
    requires i < |ls| == |ls'| && forall j | 0 <= j < i :: ls'[j] == ls[j]
    ensures Settled(ls, reading, i) <==> Settled(ls', reading, i)
  {
    forall j | 0 <= j < i ensures Told(ls, reading, j, ls[j].Active()) <==> Told(ls', reading, j, ls'[j].Active()) {
    }
  }

  /** Layer `i` is settled if what it has told fits its new state. */
  lemma SettledMore(ls: seq<Layer>, reading: bool, i: nat, l: Layer)
    requires i < |ls| && Settled(ls, reading, i)
    ensures Settled(ls[i := l], reading, i)
    ensures Settled(ls[i := l], reading, i + 1) <==> Told(ls, reading, i, l.Active())
  {
    var ls' := ls[i := l];
    SettledSame(ls, ls', reading, i);
    assert Told(ls', reading, i, l.Active()) <==> Told(ls, reading, i, l.Active());
    if Settled(ls', reading, i + 1) {
      assert Told(ls', reading, i, ls'[i].Active());
    }
  }

  lemma KeptSet(was: seq<Layer>, mid: seq<Layer>, i: nat, l: Layer)
    requires i < |was| == |mid| && Kept(was, mid, i)
    ensures Kept(was[i := l], mid[i := l], i)
  {
    assert mid[i := l][i..] == mid[i..][0 := l];
    assert was[i := l][i..] == was[i..][0 := l];
  }
}
