/** The visibility arbitration of one intersection-observer callback: of a
    batch of readings, keep those at least three-quarters visible and pick
    the one with the greatest ratio, the later one on a tie. */
module Arbiter {

  datatype Option<T> = None | Some(value: T)

  /** One intersection reading. `target` is the position of the observed
      element in the current list of rendered players, or any value outside
      that list when the element is no longer rendered. */
  datatype Entry = Entry(target: int, isIntersecting: bool, ratio: real)

  /** The visibility a reading needs to be considered. */
  const Threshold: real := 0.75

  predicate Considered(e: Entry)
  {
    e.isIntersecting && e.ratio >= Threshold
  }

  /** The readings that are considered, in their original order. */
  function Visible(es: seq<Entry>): (vs: seq<Entry>)
    ensures |vs| <= |es|
    ensures forall e :: e in vs <==> e in es && Considered(e)
  {
    if es == [] then []
    else if Considered(es[0]) then [es[0]] + Visible(es[1..])
    else Visible(es[1..])
  }

  /** The index that the reduction `(a, b) => a.ratio > b.ratio ? a : b`
      ends on: a greatest ratio, and no later reading reaches it, so a tie
      goes to the later reading. */
  function BestIndex(vs: seq<Entry>): (k: nat)
    requires vs != []
    ensures k < |vs|
    ensures forall j :: 0 <= j < |vs| ==> vs[j].ratio <= vs[k].ratio
    ensures forall j :: k < j < |vs| ==> vs[j].ratio < vs[k].ratio
  {
    if |vs| == 1 then 0
    else
      var a := BestIndex(vs[..|vs| - 1]);
      if vs[a].ratio > vs[|vs| - 1].ratio then a else |vs| - 1
  }

  /** The greatest ratio and "no later reading reaches it" single out one
      index: the reduction's choice is the last reading of greatest ratio. */
  lemma {:induction false} BestIndexUnique(vs: seq<Entry>, k: nat)
    requires k < |vs|
    requires forall j :: 0 <= j < |vs| ==> vs[j].ratio <= vs[k].ratio
    requires forall j :: k < j < |vs| ==> vs[j].ratio < vs[k].ratio
    ensures BestIndex(vs) == k
  {
    var b := BestIndex(vs);
    assert vs[k].ratio <= vs[b].ratio && vs[b].ratio <= vs[k].ratio;
  }

  /** The reading the callback acts on, or None when no reading is
      considered. */
  function Best(es: seq<Entry>): (r: Option<Entry>)
    ensures r.None? <==> forall e :: e in es ==> !Considered(e)
    ensures r.Some? ==> r.value in es && Considered(r.value)
    ensures r.Some? ==> forall e :: e in es && Considered(e) ==> e.ratio <= r.value.ratio
  {
    var vs := Visible(es);
    if vs == [] then None
    else
      var k := BestIndex(vs);
      assert forall e :: e in vs ==> e.ratio <= vs[k].ratio by {
        forall e | e in vs ensures e.ratio <= vs[k].ratio {
          var j :| 0 <= j < |vs| && vs[j] == e;
        }
      }
      assert vs[k] in vs;
      Some(vs[k])
  }

  /** The filter keeps the readings in their order: filtering one more
      reading appends it exactly when it is considered. */
  lemma {:induction false} VisibleSnoc(es: seq<Entry>, e: Entry)
    ensures Visible(es + [e]) == Visible(es) + (if Considered(e) then [e] else [])
    decreases |es|
  {
    if es == [] {
      assert [e][1..] == [];
    } else {
      assert (es + [e])[0] == es[0];
      assert (es + [e])[1..] == es[1..] + [e];
      VisibleSnoc(es[1..], e);
    }
  }

  /** Choosing over a batch is the reduction step `a.ratio > b.ratio ? a : b`
      taken reading by reading over the considered ones. */
  lemma BestSnoc(es: seq<Entry>, e: Entry)
    ensures Best(es + [e]) ==
      if !Considered(e) then Best(es)
      else match Best(es)
        case None => Some(e)
        case Some(a) => if a.ratio > e.ratio then Some(a) else Some(e)
  {
    VisibleSnoc(es, e);
    var vs := Visible(es);
    if Considered(e) && vs != [] {
      var ws := vs + [e];
      assert ws[..|ws| - 1] == vs;
      var a := BestIndex(vs);
      assert Best(es) == Some(vs[a]);
      assert BestIndex(ws) == if vs[a].ratio > e.ratio then a else |vs|;
      assert Best(es + [e]) == Some(ws[BestIndex(ws)]);
      assert ws[a] == vs[a] && ws[|vs|] == e;
    } else if Considered(e) {
      assert Visible(es + [e]) == [e];
      assert BestIndex([e]) == 0;
    } else {
      assert Visible(es + [e]) == vs;
      if vs != [] {
        assert Best(es + [e]) == Some(vs[BestIndex(vs)]) == Best(es);
      }
    }
  }

  /** The choice is the last reading of greatest ratio in the batch itself:
      no considered reading after it reaches its ratio. */
  lemma {:induction false} BestLastOfGreatest(es: seq<Entry>)
    ensures Best(es).Some? ==>
      exists i :: 0 <= i < |es| && es[i] == Best(es).value &&
        forall j :: i < j < |es| && Considered(es[j]) ==> es[j].ratio < es[i].ratio
    decreases |es|
  {
    if es != [] {
      var n := |es| - 1;
      var init, e := es[..n], es[n];
      assert es == init + [e];
      BestSnoc(init, e);
      BestLastOfGreatest(init);
      var b := Best(init);
      if !Considered(e) || (b.Some? && b.value.ratio > e.ratio) {
        if b.Some? {
          var i :| 0 <= i < |init| && init[i] == b.value &&
            forall j :: i < j < |init| && Considered(init[j]) ==> init[j].ratio < init[i].ratio;
          assert es[i] == Best(es).value;
          assert forall j :: i < j < |es| && Considered(es[j]) ==> es[j].ratio < es[i].ratio by {
            forall j | i < j < |es| && Considered(es[j]) ensures es[j].ratio < es[i].ratio {
              if j < n { assert es[j] == init[j]; }
            }
          }
        }
      } else {
        assert es[n] == Best(es).value;
      }
    }
  }
}
