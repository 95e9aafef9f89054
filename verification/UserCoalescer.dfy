/** Coalescing of user events: of each name only the events with the newest time
    since the last flush survive. */
module UserCoalescer {
  datatype Event = Event(ltime: nat, name: string, payload: string)

  // ----- What a flush is to emit -----

  /** The newest time of a name, zero if there is none. */
  function NewestTime(es: seq<Event>, name: string): nat {
    if es == [] then 0
    else
      var before := NewestTime(es[..|es| - 1], name);
      var e := es[|es| - 1];
      if e.name == name && e.ltime > before then e.ltime else before
  }

  /** The events of a name at one time, in order of arrival. */
  function At(es: seq<Event>, name: string, t: nat): seq<Event> {
    if es == [] then []
    else
      var e := es[|es| - 1];
      At(es[..|es| - 1], name, t) + if e.name == name && e.ltime == t then [e] else []
  }

  function Newest(es: seq<Event>, name: string): seq<Event> {
    At(es, name, NewestTime(es, name))
  }

  /** The names, in order of first arrival. */
  function NamesOf(es: seq<Event>): seq<string> {
    if es == [] then []
    else
      var before := NamesOf(es[..|es| - 1]);
      var name := es[|es| - 1].name;
      if name in before then before else before + [name]
  }

  function NewestOfAll(es: seq<Event>, names: seq<string>): seq<Event> {
    if names == [] then [] else NewestOfAll(es, names[..|names| - 1]) + Newest(es, names[|names| - 1])
  }

  /** The events of the first names come first. */
  lemma {:induction false} NewestOfMore(es: seq<Event>, names: seq<string>, n: nat)
    requires n <= |names|
    ensures NewestOfAll(es, names[..n]) <= NewestOfAll(es, names)
    decreases |names|
  {
    if n == |names| {
      assert names[..n] == names;
    } else {
      var rest := names[..|names| - 1];
      NewestOfMore(es, rest, n);
      assert rest[..n] == names[..n];
    }
  }

  lemma CutOfMore(part: seq<Event>, all: seq<Event>, room: nat)
    requires part <= all && |part| > room
    ensures |all| > room && part[..room] == all[..room]
  {
  }

  /** `Newest` keeps exactly the events of the name that no event of it is newer than. */
  lemma {:induction false} NewestAreTheMaximal(es: seq<Event>, name: string, e: Event)
    ensures e in Newest(es, name) <==>
            e in es && e.name == name && forall x :: x in es && x.name == name ==> x.ltime <= e.ltime
  {
    NewestTimeIsMaximal(es, name);
    AtSelects(es, name, NewestTime(es, name), e);
  }

  lemma {:induction false} NewestTimeIsMaximal(es: seq<Event>, name: string)
    ensures forall x :: x in es && x.name == name ==> x.ltime <= NewestTime(es, name)
    ensures NewestTime(es, name) != 0 ==> exists x :: x in es && x.name == name && x.ltime == NewestTime(es, name)
  {
    if es == [] {
    } else {
      var n := |es| - 1;
      NewestTimeIsMaximal(es[..n], name);
      assert es == es[..n] + [es[n]];
      assert es[n] in es;
    }
  }

  lemma {:induction false} AtSelects(es: seq<Event>, name: string, t: nat, e: Event)
    ensures e in At(es, name, t) <==> e in es && e.name == name && e.ltime == t
  {
    if es == [] {
    } else {
      AtSelects(es[..|es| - 1], name, t, e);
      assert es == es[..|es| - 1] + [es[|es| - 1]];
    }
  }

  lemma {:induction false} NothingAtLaterTimes(es: seq<Event>, name: string, t: nat)
    requires t > NewestTime(es, name)
    ensures At(es, name, t) == []
  {
    if es == [] {
    } else {
      NothingAtLaterTimes(es[..|es| - 1], name, t);
    }
  }

  /** Every name that arrived is listed. */
  lemma {:induction false} ArrivedNameIsListed(es: seq<Event>, k: nat)
    requires k < |es|
    ensures es[k].name in NamesOf(es)
  {
    var n := |es| - 1;
    if k == n {
    } else {
      ArrivedNameIsListed(es[..n], k);
    }
  }

  /** And only such names are; there is nothing of any other name. */
  lemma {:induction false} OtherNamesAreUnheardOf(es: seq<Event>, name: string)
    ensures name in NamesOf(es) ==> exists k :: 0 <= k < |es| && es[k].name == name
    ensures name !in NamesOf(es) ==> NewestTime(es, name) == 0 && At(es, name, 0) == []
  {
    if es == [] {
    } else {
      var n := |es| - 1;
      OtherNamesAreUnheardOf(es[..n], name);
      if name in NamesOf(es[..n]) {
        var k :| 0 <= k < n && es[..n][k].name == name;
        assert es[k].name == name;
      } else if name in NamesOf(es) {
        assert es[n].name == name;
      }
    }
  }

  /** No name is listed twice. */
  lemma {:induction false} NamesAreListedOnce(es: seq<Event>)
    ensures forall i, j :: 0 <= i < j < |NamesOf(es)| ==> NamesOf(es)[i] != NamesOf(es)[j]
  {
    if es == [] {
    } else {
      NamesAreListedOnce(es[..|es| - 1]);
    }
  }

  /** The names are listed in the order of their first arrivals: those of the events so far
      come before those that are new in later ones. */
  lemma {:induction false} NamesAreInOrderOfArrival(es: seq<Event>, more: seq<Event>)
    ensures NamesOf(es) <= NamesOf(es + more)
    decreases |more|
  {
    if more == [] {
      assert es + more == es;
    } else {
      var n := |more| - 1;
      NamesAreInOrderOfArrival(es, more[..n]);
      assert (es + more)[..|es + more| - 1] == es + more[..n];
    }
  }

  /** The events of a name at one time are taken from the stream in order, */
  lemma {:induction false} EventsAreInOrderOfArrival(es: seq<Event>, more: seq<Event>, name: string, t: nat)
    ensures At(es + more, name, t) == At(es, name, t) + At(more, name, t)
    decreases |more|
  {
    if more == [] {
      assert es + more == es;
    } else {
      var n := |more| - 1;
      var all := es + more;
      EventsAreInOrderOfArrival(es, more[..n], name, t);
      assert all[..|all| - 1] == es + more[..n] && all[|all| - 1] == more[n];
    }
  }

  /** and one by one. */
  lemma {:induction false} EventIsTakenIffItIs(e: Event, name: string, t: nat)
    ensures At([e], name, t) == if e.name == name && e.ltime == t then [e] else []
  {
    assert [e][..0] == [];
  }

  /** A flush is to emit an event exactly if it came and none of its name is newer. */
  lemma {:induction false} FlushHoldsExactlyTheNewest(es: seq<Event>, names: seq<string>, e: Event)
    ensures e in NewestOfAll(es, names) <==>
            e.name in names && e in es && forall x :: x in es && x.name == e.name ==> x.ltime <= e.ltime
  {
    if names == [] {
    } else {
      var n := |names| - 1;
      FlushHoldsExactlyTheNewest(es, names[..n], e);
      NewestAreTheMaximal(es, names[n], e);
      assert names == names[..n] + [names[n]];
    }
  }

  /** What one more event does to the newest of each name. */
  lemma Arrival(es: seq<Event>, e: Event, name: string)
    ensures var (was, now) := (NewestTime(es, name), NewestTime(es + [e], name));
            if name != e.name || e.ltime < was then now == was && Newest(es + [e], name) == Newest(es, name)
            else now == e.ltime && Newest(es + [e], name) == (if e.ltime > was then [] else Newest(es, name)) + [e]
  {
    assert (es + [e])[..|es|] == es;
    if e.ltime > NewestTime(es, name) { NothingAtLaterTimes(es, name, e.ltime); }
  }

  // ----- The coalescer -----

  datatype Latest = Latest(ltime: nat, events: seq<Event>)

  class Coalescer {
    var names: seq<string>             // the order of the index map
    var latest: map<string, Latest>
    ghost var received: seq<Event>     // since the last flush

    ghost predicate Valid()
      reads this
    {
      && names == NamesOf(received)
      && (forall name :: name in latest <==> name in names)
      && (forall name :: name in latest ==> latest[name] == Latest(NewestTime(received, name), Newest(received, name)))
    }

    constructor ()
      ensures Valid() && received == []
    {
      names, latest, received := [], map[], [];
    }

    method Coalesce(e: Event)
      requires Valid()
      modifies this
      ensures Valid() && received == old(received) + [e]
    {
      OtherNamesAreUnheardOf(received, e.name);
      forall name { Arrival(received, e, name); }
      assert (received + [e])[..|received|] == received;
      received := received + [e];
      if e.name !in latest {
        names := names + [e.name];
        latest := latest[e.name := Latest(e.ltime, [e])];
      } else {
        var l := latest[e.name];
        if l.ltime < e.ltime {
          latest := latest[e.name := Latest(e.ltime, [e])];
        } else if l.ltime == e.ltime {
          latest := latest[e.name := l.(events := l.events + [e])];
        }
      }
    }

    /** Emits, name by name in order of first arrival, exactly the events with the
        newest time of that name since the last flush, in order of arrival. The
        output channel takes `room` more events before its receiver closes it; the
        flush then stops with an error, and what is left is dropped. */
    method Flush(room: nat) returns (out: seq<Event>, closed: bool)
      requires Valid()
      modifies this
      ensures Valid() && received == []
      ensures var all := NewestOfAll(old(received), NamesOf(old(received)));
              (closed <==> |all| > room) && out == if closed then all[..room] else all
    {
      out, closed := SendAll(room);
      names, latest, received := [], map[], [];
    }

    method SendAll(room: nat) returns (out: seq<Event>, closed: bool)
      requires Valid()
      ensures var all := NewestOfAll(received, names);
              (closed <==> |all| > room) && out == if closed then all[..room] else all
    {
      out, closed := [], false;
      for i := 0 to |names|
        invariant |out| <= room && out == NewestOfAll(received, names[..i])
      {
        ghost var sent := out;
        var es := latest[names[i]].events;
        assert names[..i + 1][..i] == names[..i];
        out, closed := SendEvents(out, es, room);
        if closed {
          NewestOfMore(received, names, i + 1);
          CutOfMore(sent + es, NewestOfAll(received, names), room);
          return;
        }
      }
      assert names[..|names|] == names;
    }

    static method SendEvents(before: seq<Event>, es: seq<Event>, room: nat) returns (out: seq<Event>, closed: bool)
      requires |before| <= room
      ensures closed <==> |before + es| > room
      ensures out == if closed then (before + es)[..room] else before + es
    {
      out, closed := before, false;
      for j := 0 to |es|
        invariant out == before + es[..j] && |out| <= room
      {
        if |out| == room { return out, true; }
        out := out + [es[j]];
      }
      assert es[..|es|] == es;
    }
  }
}
