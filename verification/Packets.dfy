/**
 Perfetto packets as the exporter fills them in, and what makes a whole packet
 stream well formed.
 */
module Packets {
  import opened Records

  const SEQUENCE_ID: nat := 1

  datatype EventKind = SliceBegin | SliceEnd | Instant

  datatype Annotation = Annotation(name: string, value: int)

  datatype Packet =
    | Descriptor(sequenceId: nat, name: string, uuid: nat)
    | Event(sequenceId: nat, timestamp: Time, kind: EventKind, name: string, track: nat,
            flowIds: seq<Id>, annotations: seq<Annotation>, callstack: seq<string>)

  /** The uuids of the tracks a stream declares, in order. */
  function Declared(ps: seq<Packet>): seq<nat> {
    if ps == [] then [] else
    Declared(ps[..|ps| - 1]) + (if ps[|ps| - 1].Descriptor? then [ps[|ps| - 1].uuid] else [])
  }

  /** The events a stream puts on track `t`, in order. */
  function EventsOf(ps: seq<Packet>, t: nat): (es: seq<Packet>)
    ensures forall e :: e in es ==> e.Event? && e.track == t
  {
    if ps == [] then [] else
    var last := ps[|ps| - 1];
    EventsOf(ps[..|ps| - 1], t) + (if last.Event? && last.track == t then [last] else [])
  }

  /** `lo + 1, ..., hi`. */
  function Range(lo: nat, hi: nat): (r: seq<nat>)
    requires lo <= hi
    ensures |r| == hi - lo
    ensures forall i :: 0 <= i < |r| ==> r[i] == lo + 1 + i
  {
    seq(hi - lo, i requires 0 <= i => lo + 1 + i)
  }

  ghost predicate IsSlice(es: seq<Packet>) {
    |es| == 2 && es[0].Event? && es[1].Event? && es[0].kind == SliceBegin && es[1].kind == SliceEnd
  }

  ghost predicate OnlyInstants(es: seq<Packet>) {
    forall e :: e in es ==> e.Event? && e.kind == Instant
  }

  /** Every event is on a track that an earlier packet declares. */
  ghost predicate DeclaredBeforeUse(ps: seq<Packet>) {
    forall j :: 0 <= j < |ps| && ps[j].Event? ==> ps[j].track in Declared(ps[..j])
  }

  /**
   A piece of a stream that declares exactly the tracks `lo + 1 .. hi`, in order,
   uses no other track, and puts on each of them one slice or only instants.
   */
  ghost predicate Fragment(ps: seq<Packet>, lo: nat, hi: nat)
    requires lo <= hi
  {
    && Declared(ps) == Range(lo, hi)
    && DeclaredBeforeUse(ps)
    && (forall p :: p in ps ==> p.sequenceId == SEQUENCE_ID)
    && (forall t: nat :: IsSlice(EventsOf(ps, t)) || OnlyInstants(EventsOf(ps, t)))
  }

  /** A whole stream with `n` tracks. */
  ghost predicate WellFormed(ps: seq<Packet>, n: nat) {
    Fragment(ps, 0, n)
  }

  /** Every slice begins no later than it ends. */
  ghost predicate SlicesOrdered(ps: seq<Packet>) {
    forall t: nat :: SliceOrdered(EventsOf(ps, t))
  }

  ghost predicate SliceOrdered(es: seq<Packet>) {
    IsSlice(es) ==> es[0].timestamp <= es[1].timestamp
  }

  lemma {:induction false} DeclaredConcat(a: seq<Packet>, b: seq<Packet>)
    ensures Declared(a + b) == Declared(a) + Declared(b)
  {
    if b == [] {
      assert a + b == a;
    } else {
      assert (a + b)[..|a + b| - 1] == a + b[..|b| - 1];
      DeclaredConcat(a, b[..|b| - 1]);
    }
  }

  lemma {:induction false} EventsConcat(a: seq<Packet>, b: seq<Packet>, t: nat)
    ensures EventsOf(a + b, t) == EventsOf(a, t) + EventsOf(b, t)
  {
    if b == [] {
      assert a + b == a;
    } else {
      assert (a + b)[..|a + b| - 1] == a + b[..|b| - 1];
      EventsConcat(a, b[..|b| - 1], t);
    }
  }

  lemma {:induction false} DeclaredPrefix(ps: seq<Packet>, k: nat, t: nat)
    requires k <= |ps| && t in Declared(ps[..k])
    ensures t in Declared(ps)
  {
    assert ps == ps[..k] + ps[k..];
    DeclaredConcat(ps[..k], ps[k..]);
  }

  lemma {:induction false} UnusedTrack(ps: seq<Packet>, t: nat)
    requires forall p :: p in ps && p.Event? ==> p.track != t
    ensures EventsOf(ps, t) == []
  {
    if ps != [] { UnusedTrack(ps[..|ps| - 1], t); }
  }

  lemma {:induction false} FragmentTracks(ps: seq<Packet>, lo: nat, hi: nat, t: nat)
    requires lo <= hi && Fragment(ps, lo, hi)
    requires t <= lo || hi < t
    ensures EventsOf(ps, t) == []
  {
    forall p | p in ps && p.Event? ensures p.track != t {
      var j :| 0 <= j < |ps| && ps[j] == p;
      DeclaredPrefix(ps, j, p.track);
    }
    UnusedTrack(ps, t);
  }

  lemma {:induction false} DeclaredBeforeUseConcat(a: seq<Packet>, b: seq<Packet>)
    requires DeclaredBeforeUse(a) && DeclaredBeforeUse(b)
    ensures DeclaredBeforeUse(a + b)
  {
    forall j | 0 <= j < |a + b| && (a + b)[j].Event?
      ensures (a + b)[j].track in Declared((a + b)[..j])
    {
      if j < |a| {
        assert (a + b)[..j] == a[..j];
      } else {
        assert (a + b)[..j] == a + b[..j - |a|];
        DeclaredConcat(a, b[..j - |a|]);
      }
    }
  }

  lemma {:induction false} TracksSplit(a: seq<Packet>, b: seq<Packet>, lo: nat, mid: nat, hi: nat, t: nat)
    requires lo <= mid <= hi && Fragment(a, lo, mid) && Fragment(b, mid, hi)
    ensures EventsOf(a + b, t) == EventsOf(if t <= mid then a else b, t)
    ensures t <= mid ==> EventsOf(b, t) == []
    ensures mid < t ==> EventsOf(a, t) == []
  {
    hide Fragment, EventsOf;
    EventsConcat(a, b, t);
    if t <= mid { FragmentTracks(b, mid, hi, t); } else { FragmentTracks(a, lo, mid, t); }
  }

  /** Fragments compose. */
  lemma {:induction false} FragmentConcat(a: seq<Packet>, b: seq<Packet>, lo: nat, mid: nat, hi: nat)
    requires lo <= mid <= hi && Fragment(a, lo, mid) && Fragment(b, mid, hi)
    ensures Fragment(a + b, lo, hi)
    ensures SlicesOrdered(a + b) <==> SlicesOrdered(a) && SlicesOrdered(b)
  {
    hide Declared, EventsOf, DeclaredBeforeUse, SlicesOrdered;
    DeclaredConcat(a, b);
    assert Range(lo, mid) + Range(mid, hi) == Range(lo, hi);
    DeclaredBeforeUseConcat(a, b);
    forall t: nat
      ensures EventsOf(a + b, t) == EventsOf(if t <= mid then a else b, t)
      ensures t <= mid ==> EventsOf(b, t) == []
      ensures mid < t ==> EventsOf(a, t) == []
    {
      TracksSplit(a, b, lo, mid, hi, t);
    }
    SlicesOrderedConcat(a, b, mid);
  }

  lemma {:induction false} SlicesOrderedConcat(a: seq<Packet>, b: seq<Packet>, mid: nat)
    requires forall t: nat :: EventsOf(a + b, t) == EventsOf(if t <= mid then a else b, t)
    requires forall t: nat :: t <= mid ==> EventsOf(b, t) == []
    requires forall t: nat :: mid < t ==> EventsOf(a, t) == []
    ensures SlicesOrdered(a + b) <==> SlicesOrdered(a) && SlicesOrdered(b)
  {
    if SlicesOrdered(a + b) {
      forall t: nat ensures SliceOrdered(EventsOf(a, t)) && SliceOrdered(EventsOf(b, t)) {
        assert SliceOrdered(EventsOf(a + b, t));
      }
    }
  }
}
