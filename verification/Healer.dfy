/** The self-healing watcher (src/heal.rs): an incremental map of what was reported, against an edge
    detector that looks only at the history of samples. */
module Healer {
  import opened Wrappers

  datatype Incident = Incident(kind: string, name: string, detail: string)

  /** A session opened against the heal agent over this connection. */
  datatype Report = Report(conn: nat, incident: Incident)

  /** What happens to the watcher: a connection is put in the slot, or the timer fires over a sample. */
  datatype Event = Connected(conn: nat) | Tick(incidents: seq<Incident>)

  function Key(i: Incident): string {
    i.kind + ":" + i.name
  }

  function Keys(incidents: seq<Incident>): set<string> {
    set i | i in incidents :: Key(i)
  }

  // ---------------------------------------------------------------- the edge detector

  /** The keys down at the last tick. */
  function DownNow(history: seq<Event>): set<string> {
    if history == [] then {}
    else
      match history[|history| - 1]
      case Tick(incidents) => Keys(incidents)
      case Connected(_) => DownNow(history[..|history| - 1])
  }

  /** The connection in the slot: the last one put there. Nothing ever takes it out again. */
  function Slot(history: seq<Event>): Option<nat> {
    if history == [] then None
    else
      match history[|history| - 1]
      case Connected(conn) => Some(conn)
      case Tick(_) => Slot(history[..|history| - 1])
  }

  /** In one sample: the first incident of each key that was not down at the tick before. */
  function Edges(before: set<string>, incidents: seq<Incident>, slot: Option<nat>): seq<Report> {
    if incidents == [] then []
    else
      var earlier := incidents[..|incidents| - 1];
      var last := incidents[|incidents| - 1];
      Edges(before, earlier, slot) +
      if Key(last) !in before && Key(last) !in Keys(earlier) && slot.Some? then [Report(slot.value, last)] else []
  }

  function Expected(history: seq<Event>): seq<Report> {
    if history == [] then []
    else
      var before := history[..|history| - 1];
      match history[|history| - 1]
      case Connected(_) => Expected(before)
      case Tick(incidents) => Expected(before) + Edges(DownNow(before), incidents, Slot(before))
  }

  lemma OneIncident(before: set<string>, incidents: seq<Incident>, i: nat, slot: Option<nat>)
    requires i < |incidents|
    ensures Key(incidents[i]) in Keys(incidents)
    ensures Keys(incidents[..i + 1]) == Keys(incidents[..i]) + {Key(incidents[i])}
    ensures Edges(before, incidents[..i + 1], slot) == Edges(before, incidents[..i], slot) +
            if Key(incidents[i]) !in before && Key(incidents[i]) !in Keys(incidents[..i]) && slot.Some?
            then [Report(slot.value, incidents[i])] else []
  {
    assert incidents[..i + 1][..i] == incidents[..i];
    assert incidents[..i + 1] == incidents[..i] + [incidents[i]];
  }

  // ---------------------------------------------------------------- the watcher

  class SelfHealer {
    var reported: map<string, bool>
    var slot: Option<nat>

    constructor ()
      ensures reported == map[] && slot == None
    {
      reported, slot := map[], None;
    }

    method Put(conn: nat)
      modifies this`slot
      ensures slot == Some(conn)
    {
      slot := Some(conn);
    }

    /** Re-arm anything healthy again, in whatever order the map gives its keys. */
    method Rearm(down: set<string>)
      modifies this`reported
      ensures reported.Keys == old(reported.Keys) * down
    {
      var keys := reported.Keys;
      while keys != {}
        invariant keys <= reported.Keys <= old(reported.Keys)
        invariant old(reported.Keys) * down <= reported.Keys
        invariant reported.Keys - keys <= down
        decreases keys
      {
        var key :| key in keys;
        if key !in down { reported := reported - {key}; }
        keys := keys - {key};
      }
    }

    /** One tick: re-arm, then report what is newly down. A key counts as reported even when there was
        no connection to report it over. */
    method OnTick(incidents: seq<Incident>) returns (reports: seq<Report>)
      modifies this`reported
      ensures reported.Keys == Keys(incidents)
      ensures reports == Edges(old(reported.Keys), incidents, slot)
    {
      var down := Keys(incidents);
      Rearm(down);
      ghost var kept := reported.Keys;
      reports := [];
      for i := 0 to |incidents|
        invariant reported.Keys == kept + Keys(incidents[..i])
        invariant reports == Edges(old(reported.Keys), incidents[..i], slot)
      {
        var incident := incidents[i];
        OneIncident(old(reported.Keys), incidents, i, slot);
        assert Key(incident) in kept <==> Key(incident) in old(reported.Keys);
        if Key(incident) in reported { continue; }
        reported := reported[Key(incident) := true];
        if slot.Some? { reports := reports + [Report(slot.value, incident)]; }
      }
      assert incidents[..|incidents|] == incidents;
    }

    /** The watcher over a whole history: after it, the keys marked reported are exactly those down at
        the last tick, and what was reported is what the edge detector says. */
    method Run(history: seq<Event>) returns (reports: seq<Report>)
      requires reported == map[] && slot == None
      modifies this
      ensures reports == Expected(history)
      ensures reported.Keys == DownNow(history) && slot == Slot(history)
    {
      reports := [];
      for i := 0 to |history|
        invariant reports == Expected(history[..i])
        invariant reported.Keys == DownNow(history[..i]) && slot == Slot(history[..i])
      {
        assert history[..i + 1][..i] == history[..i];
        match history[i] {
          case Connected(conn) => Put(conn);
          case Tick(incidents) =>
            var more := OnTick(incidents);
            reports := reports + more;
        }
      }
      assert history[..|history|] == history;
    }
  }

  // ---------------------------------------------------------------- what it adds up to

  function Reports(reports: seq<Report>, key: string): nat {
    if reports == [] then 0
    else Reports(reports[..|reports| - 1], key) + if Key(reports[|reports| - 1].incident) == key then 1 else 0
  }

  lemma {:induction false} ReportsAdd(a: seq<Report>, b: seq<Report>, key: string)
    ensures Reports(a + b, key) == Reports(a, key) + Reports(b, key)
    decreases |b|
  {
    if b == [] {
      assert a + b == a;
    } else {
      ReportsAdd(a, b[..|b| - 1], key);
      assert (a + b)[..|a + b| - 1] == a + b[..|b| - 1];
    }
  }

  ghost predicate DownAt(history: seq<Event>, i: nat, key: string) {
    i < |history| && history[i].Tick? && exists n :: 0 <= n < |history[i].incidents| && Key(history[i].incidents[n]) == key
  }

  /** At tick `i` the key is down, whenever it was down before there has been a tick since (the one before
      this at the latest, at which then it was not), and some connection has been made. */
  ghost predicate IsEdge(history: seq<Event>, i: nat, key: string)
    requires i < |history|
  {
    && DownAt(history, i, key)
    && (forall k: nat :: k < i && DownAt(history, k, key) ==> exists m :: k < m < i && history[m].Tick?)
    && (exists c :: 0 <= c < i && history[c].Connected?)
  }

  lemma {:induction false} DownNowMeans(history: seq<Event>, n: nat, key: string)
    requires n <= |history|
    ensures key in DownNow(history[..n]) <==>
            exists k: nat :: k < n && DownAt(history, k, key) && forall m :: k < m < n ==> !history[m].Tick?
    decreases n
  {
    if n > 0 {
      var l := n - 1;
      DownNowMeans(history, l, key);
      assert history[..n][..l] == history[..l];
      if history[l].Tick? {
        assert key in Keys(history[l].incidents) <==> DownAt(history, l, key);
      } else if key in DownNow(history[..l]) {
        var k: nat :| k < l && DownAt(history, k, key) && forall m :: k < m < l ==> !history[m].Tick?;
        assert k < n && DownAt(history, k, key) && forall m :: k < m < n ==> !history[m].Tick?;
      }
    }
  }

  /** The slot holds the last connection made. */
  lemma {:induction false} SlotMeans(history: seq<Event>, n: nat)
    requires n <= |history|
    ensures Slot(history[..n]).Some? <==> exists c :: 0 <= c < n && history[c].Connected?
    ensures Slot(history[..n]).Some? ==>
              exists c :: 0 <= c < n && history[c] == Connected(Slot(history[..n]).value) && NoneMadeIn(history, c + 1, n)
    decreases n
  {
    if n > 0 {
      var l := n - 1;
      SlotMeans(history, l);
      assert history[..n][..l] == history[..l];
      if history[l].Connected? {
        assert NoneMadeIn(history, l + 1, n);
      } else if Slot(history[..l]).Some? {
        var c :| 0 <= c < l && history[c] == Connected(Slot(history[..l]).value) && NoneMadeIn(history, c + 1, l);
        assert NoneMadeIn(history, c + 1, n);
      }
    }
  }

  predicate NoneMadeIn(history: seq<Event>, i: nat, j: nat)
    requires j <= |history|
  {
    forall m :: i <= m < j ==> !history[m].Connected?
  }

  /** In the detector's terms. */
  lemma EdgeAt(history: seq<Event>, i: nat, key: string)
    requires i < |history|
    ensures IsEdge(history, i, key) <==>
            history[i].Tick? && key in Keys(history[i].incidents) && key !in DownNow(history[..i]) && Slot(history[..i]).Some?
  {
    DownNowMeans(history, i, key);
    SlotMeans(history, i);
    if history[i].Tick? { assert key in Keys(history[i].incidents) <==> DownAt(history, i, key); }
  }

  /** Whatever is reported was in the sample of some tick, and goes over the last connection made by then. */
  lemma {:induction false} ReportsGoOverTheLatest(history: seq<Event>, r: Report) returns (i: nat, c: nat)
    requires r in Expected(history)
    ensures i < |history| && history[i].Tick? && r.incident in history[i].incidents
    ensures c < i && history[c] == Connected(r.conn) && NoneMadeIn(history, c + 1, i)
    decreases |history|
  {
    var n := |history| - 1;
    if r in Expected(history[..n]) {
      i, c := ReportsGoOverTheLatest(history[..n], r);
      assert NoneMadeIn(history, c + 1, i);
    } else {
      i := n;
      ReportedFromSample(DownNow(history[..n]), history[n].incidents, Slot(history[..n]), r);
      SlotMeans(history, n);
      c :| 0 <= c < n && history[c] == Connected(r.conn) && NoneMadeIn(history, c + 1, n);
    }
  }

  lemma {:induction false} ReportedFromSample(before: set<string>, incidents: seq<Incident>, slot: Option<nat>, r: Report)
    requires r in Edges(before, incidents, slot)
    ensures r.incident in incidents && slot == Some(r.conn)
    decreases |incidents|
  {
    var earlier := incidents[..|incidents| - 1];
    if r in Edges(before, earlier, slot) { ReportedFromSample(before, earlier, slot, r); }
  }

  ghost function EdgeCount(history: seq<Event>, key: string): nat {
    |set i | 0 <= i < |history| && IsEdge(history, i, key)|
  }

  lemma {:induction false} OneReportPerKey(before: set<string>, incidents: seq<Incident>, slot: Option<nat>, key: string)
    ensures Reports(Edges(before, incidents, slot), key) ==
            if key in Keys(incidents) && key !in before && slot.Some? then 1 else 0
    decreases |incidents|
  {
    if incidents != [] {
      var earlier := incidents[..|incidents| - 1];
      var last := incidents[|incidents| - 1];
      OneReportPerKey(before, earlier, slot, key);
      assert incidents[..|incidents|] == incidents;
      OneIncident(before, incidents, |incidents| - 1, slot);
      hide Keys, Key;
      if Key(last) !in before && Key(last) !in Keys(earlier) && slot.Some? {
        ReportsAdd(Edges(before, earlier, slot), [Report(slot.value, last)], key);
        assert [Report(slot.value, last)][..0] == [];
      } else {
        assert Edges(before, earlier, slot) + [] == Edges(before, earlier, slot);
      }
    }
  }

  lemma EdgeCountStep(history: seq<Event>, key: string)
    requires history != []
    ensures EdgeCount(history, key) ==
            EdgeCount(history[..|history| - 1], key) + if IsEdge(history, |history| - 1, key) then 1 else 0
  {
    var n := |history| - 1;
    var before := history[..n];
    var all := set i | 0 <= i < |history| && IsEdge(history, i, key);
    var some := set i | 0 <= i < |before| && IsEdge(before, i, key);
    forall i | 0 <= i < n
      ensures IsEdge(before, i, key) <==> IsEdge(history, i, key)
    {
      EdgeAt(before, i, key);
      EdgeAt(history, i, key);
      assert before[..i] == history[..i];
    }
    assert all == some + if IsEdge(history, n, key) then {n} else {};
  }

  /** Over any history, a key is reported exactly as many times as it goes down with a connection in the
      slot: duplicates in one sample count once, staying down counts never, coming back and falling
      again counts again, and an edge that found the slot empty is not made up for later. */
  lemma {:induction false} ReportsAreEdges(history: seq<Event>, key: string)
    ensures Reports(Expected(history), key) == EdgeCount(history, key)
    decreases |history|
  {
    if history != [] {
      var n := |history| - 1;
      var before := history[..n];
      ReportsAreEdges(before, key);
      EdgeCountStep(history, key);
      EdgeAt(history, n, key);
      if history[n].Tick? {
        OneReportPerKey(DownNow(before), history[n].incidents, Slot(before), key);
        ReportsAdd(Expected(before), Edges(DownNow(before), history[n].incidents, Slot(before)), key);
      }
    }
  }

  /** A key first seen down before any connection, and down ever since, is never reported. */
  lemma MissedEdgeIsNeverReported(history: seq<Event>, key: string, first: nat)
    requires first < |history| && history[first].Tick? && Slot(history[..first]).None?
    requires forall i :: first <= i < |history| && history[i].Tick? ==> key in Keys(history[i].incidents)
    ensures Reports(Expected(history), key) == 0
  {
    ReportsAreEdges(history, key);
    forall i | 0 <= i < |history|
      ensures !IsEdge(history, i, key)
    {
      EdgeAt(history, i, key);
      if i <= first {
        SlotLasts(history, i, first);
      } else {
        DownSince(history, key, first, i);
      }
    }
    assert (set i | 0 <= i < |history| && IsEdge(history, i, key)) == {};
  }

  lemma {:induction false} SlotLasts(history: seq<Event>, i: nat, j: nat)
    requires i <= j <= |history|
    ensures Slot(history[..i]).Some? ==> Slot(history[..j]).Some?
    decreases j - i
  {
    if i < j {
      SlotLasts(history, i, j - 1);
      assert history[..j][..j - 1] == history[..j - 1];
    }
  }

  lemma {:induction false} DownSince(history: seq<Event>, key: string, first: nat, i: nat)
    requires first < i <= |history| && history[first].Tick?
    requires forall k :: first <= k < |history| && history[k].Tick? ==> key in Keys(history[k].incidents)
    ensures key in DownNow(history[..i])
    decreases i
  {
    assert history[..i][..i - 1] == history[..i - 1];
    if first < i - 1 { DownSince(history, key, first, i - 1); }
  }

  // ---------------------------------------------------------------- keys

  const KINDS: set<string> := {"process", "container", "k8s_pod", "k8s", "k8s_node"}

  predicate NoColon(s: string) {
    forall i :: 0 <= i < |s| ==> s[i] != ':'
  }

  lemma KindsHaveNoColon(kind: string)
    requires kind in KINDS
    ensures NoColon(kind)
  {
  }

  /** A key names its kind and its target, whatever characters the target's name holds. */
  lemma KeyIsInjective(a: Incident, b: Incident)
    requires a.kind in KINDS && b.kind in KINDS
    ensures Key(a) == Key(b) <==> a.kind == b.kind && a.name == b.name
  {
    KindsHaveNoColon(a.kind);
    KindsHaveNoColon(b.kind);
    if Key(a) == Key(b) {
      assert Key(a)[|a.kind|] == ':' && Key(b)[|b.kind|] == ':';
      assert forall i :: 0 <= i < |a.kind| ==> Key(a)[i] == a.kind[i];
      assert forall i :: 0 <= i < |b.kind| ==> Key(b)[i] == b.kind[i];
      assert |a.kind| == |b.kind|;
      assert a.kind == Key(a)[..|a.kind|] && b.kind == Key(b)[..|b.kind|];
      assert a.name == Key(a)[|a.kind| + 1..] && b.name == Key(b)[|b.kind| + 1..];
    }
  }
}
