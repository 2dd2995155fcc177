/** The registry of cancellation channels: the bridge makes a channel for
    every Search or Preview the host starts and forgets it when the host
    releases it. A channel is identified by the order in which it was made;
    `minted` counts the channels made so far, so a new channel is one that
    never existed before. */
module CancelRegistry {

  datatype Registry = Registry(live: set<nat>, minted: nat)

  /** Every live channel has been made. */
  predicate Valid(r: Registry) {
    forall ch :: ch in r.live ==> ch < r.minted
  }

  /** The registry at program start: an empty map, nothing made yet. */
  const Empty: Registry := Registry({}, 0)

  /** The registry at program start satisfies the invariant. */
  lemma EmptyValid()
    ensures Valid(Empty)
  {
  }

  /** `makeCancelChannel`: a brand-new channel, added to the live set. */
  function MakeCancelChannel(r: Registry): (result: (Registry, nat))
    requires Valid(r)
    ensures Valid(result.0)
    ensures result.1 !in r.live
    ensures result.0.live == r.live + {result.1}
    ensures result.1 >= r.minted && result.0.minted > result.1
  {
    (Registry(r.live + {r.minted}, r.minted + 1), r.minted)
  }

  /** `releaseCancelChannel`: the channel leaves the live set; releasing a
      channel that is not live changes nothing. */
  function ReleaseCancelChannel(r: Registry, ch: nat): (r': Registry)
    requires Valid(r)
    ensures Valid(r')
    ensures ch !in r'.live
    ensures forall other :: other != ch ==> (other in r'.live <==> other in r.live)
    ensures ch !in r.live ==> r' == r
  {
    Registry(r.live - {ch}, r.minted)
  }

  /** What the host asks of the registry. */
  datatype Op = Make | Release(ch: nat)

  /** The registry after a sequence of requests, and the channels made, in
      order. */
  function Apply(r: Registry, ops: seq<Op>): (result: (Registry, seq<nat>))
    requires Valid(r)
    ensures Valid(result.0)
    ensures result.0.minted >= r.minted
    decreases |ops|
  {
    if |ops| == 0 then (r, [])
    else
      match ops[0]
      case Make =>
        var (r1, ch) := MakeCancelChannel(r);
        var (r2, made) := Apply(r1, ops[1..]);
        (r2, [ch] + made)
      case Release(ch) =>
        Apply(ReleaseCancelChannel(r, ch), ops[1..])
  }

  /** Channels drawn in strictly increasing order from `[lo, hi)`. */
  predicate FreshAndDistinct(made: seq<nat>, lo: nat, hi: nat) {
    (forall i :: 0 <= i < |made| ==> lo <= made[i] < hi)
    && (forall i, j :: 0 <= i < j < |made| ==> made[i] < made[j])
  }

  /** Channels made by a run are all new: none of them existed before the
      run, and no two of them are the same, whatever was released in
      between. */
  lemma {:induction false} MadeChannelsAreFresh(r: Registry, ops: seq<Op>)
    requires Valid(r)
    ensures FreshAndDistinct(Apply(r, ops).1, r.minted, Apply(r, ops).0.minted)
    decreases |ops|
  {
    if |ops| > 0 {
      match ops[0]
      case Make =>
        var (r1, ch) := MakeCancelChannel(r);
        MadeChannelsAreFresh(r1, ops[1..]);
        var r2 := Apply(r1, ops[1..]).0;
        var made := Apply(r1, ops[1..]).1;
        var all := [ch] + made;
        assert Apply(r, ops) == (r2, all);
        assert ch == r.minted && r1.minted == ch + 1;
        forall i | 0 <= i < |all|
          ensures r.minted <= all[i] < r2.minted
        {
          if i > 0 {
            assert all[i] == made[i - 1];
          }
        }
        forall i, j | 0 <= i < j < |all|
          ensures all[i] < all[j]
        {
          assert all[j] == made[j - 1];
          if i > 0 {
            assert all[i] == made[i - 1];
          }
        }
      case Release(ch) =>
        var r1 := ReleaseCancelChannel(r, ch);
        MadeChannelsAreFresh(r1, ops[1..]);
        assert Apply(r, ops) == Apply(r1, ops[1..]);
    }
  }

  /** A released channel never comes back: only `Make` adds channels, and
      it never reissues one. */
  lemma {:induction false} ReleasedStaysReleased(r: Registry, ch: nat, ops: seq<Op>)
    requires Valid(r)
    requires ch !in r.live && ch < r.minted
    ensures ch !in Apply(r, ops).0.live
    decreases |ops|
  {
    if |ops| > 0 {
      match ops[0]
      case Make =>
        var (r1, _) := MakeCancelChannel(r);
        ReleasedStaysReleased(r1, ch, ops[1..]);
      case Release(other) =>
        ReleasedStaysReleased(ReleaseCancelChannel(r, other), ch, ops[1..]);
    }
  }
}
