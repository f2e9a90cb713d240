/** The CVE half of the notifier as the state it updates: the per-vendor
    seen-set map `last_cves`, and every snapshot of it handed to `save_data`.
    Sending a Telegram message is returned as a string in an output sequence. */
module Monitor {
  import opened Wrappers
  import opened Cves
  import opened Persistence
  import opened Config

  /** One response of the feed: `totalResults` and `result.CVE_Items`. */
  datatype Feed = Feed(totalResults: int, items: seq<CveEntry>)

  /** The entries `process_cves` walks: none unless `totalResults` is positive. */
  function Batch(feed: Feed): seq<CveEntry>
  {
    if feed.totalResults > 0 then feed.items else []
  }

  /** `last_cves[m]` when `m` is a key, `None` where Python raises KeyError. */
  function Lookup(store: map<string, set<string>>, m: string): Option<set<string>>
  {
    if m in store then Some(store[m]) else None
  }

  class CveMonitor {
    /** `last_cves`: vendor name to the ids already notified for it. */
    var lastCves: map<string, set<string>>
    /** The maps passed to `save_data(last_cves_file, ...)`, oldest first. */
    var saves: seq<map<string, set<string>>>

    /** Every change to `last_cves` has been saved: the latest save, if any,
        is the current map. */
    ghost predicate Valid()
      reads this
    {
      saves != [] ==> saves[|saves| - 1] == lastCves
    }

    /** `last_cves = load_data(last_cves_file) or {m: set() for m in manufacturers}`. */
    constructor (file: FileState)
      ensures Valid()
      ensures lastCves == InitialStore(Load(file), Manufacturers)
      ensures saves == []
    {
      lastCves := InitialStore(Load(file), Manufacturers);
      saves := [];
    }

    /** `update_last_cves`: with nothing new, nothing happens; otherwise the
        new ids join `m`'s seen-set and the map is saved. */
    method UpdateLastCves(m: string, newCves: set<string>) returns (fault: Option<Fault>)
      requires Valid()
      modifies this
      ensures Valid()
      ensures fault.Some? <==> newCves != {} && m !in old(lastCves)
      ensures fault.Some? ==> fault.value == KeyError(m)
      ensures newCves == {} || fault.Some? ==> lastCves == old(lastCves) && saves == old(saves)
      ensures newCves != {} && fault.None? ==>
                lastCves == old(lastCves)[m := old(lastCves)[m] + newCves] &&
                saves == old(saves) + [lastCves]
      ensures forall v :: v in old(lastCves) ==> v in lastCves && old(lastCves)[v] <= lastCves[v]
      ensures forall v :: v in lastCves ==> v in old(lastCves)
      ensures forall v :: v in old(lastCves) && v != m ==> lastCves[v] == old(lastCves)[v]
    {
      fault := None;
      if |newCves| == 0 {
        return;
      }
      if m !in lastCves {
        fault := Some(KeyError(m));
        return;
      }
      lastCves := lastCves[m := lastCves[m] + newCves];
      saves := saves + [lastCves];
    }

    /** `process_cves(data, m)` at time `now`: one message per entry that
        passes the filter and whose id `m` had not seen before the batch,
        then the gathered ids join `m`'s seen-set. An exception stops the
        loop; the messages already sent stay sent and the map is untouched. */
    method ProcessCves(feed: Feed, m: string, now: int) returns (sent: seq<string>, fault: Option<Fault>)
      requires Valid()
      modifies this
      ensures Valid()
      ensures var o := Scan(Batch(feed), m, Lookup(old(lastCves), m), now);
        && sent == o.notices
        && fault == o.fault
        && (if fault.None? && o.gathered != {} then
              lastCves == old(lastCves)[m := old(lastCves)[m] + o.gathered] &&
              saves == old(saves) + [lastCves]
            else
              lastCves == old(lastCves) && saves == old(saves))
      ensures feed.totalResults <= 0 ==> sent == [] && fault.None? && lastCves == old(lastCves) && saves == old(saves)
      ensures forall v :: v in old(lastCves) && v != m ==> v in lastCves && lastCves[v] == old(lastCves)[v]
      ensures forall v :: v in old(lastCves) ==> v in lastCves && old(lastCves)[v] <= lastCves[v]
    {
      sent, fault := [], None;
      if feed.totalResults > 0 {
        var newCves;
        sent, newCves, fault := CheckBatch(feed.items, m, now);
        if fault.None? {
          fault := UpdateLastCves(m, newCves);
        }
      }
    }

    /** The loop of `process_cves`: for each entry in order, test it and,
        when it passes and `m` has not seen its id, send its message and
        gather the id. Nothing is stored here. */
    method CheckBatch(items: seq<CveEntry>, m: string, now: int)
      returns (sent: seq<string>, newCves: set<string>, fault: Option<Fault>)
      ensures Outcome(sent, newCves, fault) == Scan(items, m, Lookup(lastCves, m), now)
    {
      sent, newCves, fault := [], {}, None;
      var i := 0;
      while i < |items| && fault.None?
        invariant 0 <= i <= |items|
        invariant Scan(items[..i], m, Lookup(lastCves, m), now) == Outcome(sent, newCves, fault)
      {
        ScanNext(items, i, m, Lookup(lastCves, m), now);
        var c := items[i];
        var d := ExtractCveDetails(c);
        var vulnerable := IsVulnerable(d.severity, c.modifiedAt, now);
        if vulnerable.Err? {
          fault := Some(vulnerable.error);
        } else if vulnerable.value {
          if m !in lastCves {
            fault := Some(KeyError(m));
          } else if d.id !in lastCves[m] {
            newCves := newCves + {d.id};
            sent := sent + [ConstructMessage(m, d)];
          }
        }
        i := i + 1;
      }
      if fault.Some? {
        ScanStops(items, i, m, Lookup(lastCves, m), now);
      } else {
        assert items[..i] == items;
      }
    }
  }

  /** Running the same batch twice, the second time no earlier than the
      first: if the first run raised nothing, the second sends nothing,
      raises nothing and leaves the store and its save log as the first
      run left them: one save, made only when new ids were gathered. */
  method RerunIsQuiet(monitor: CveMonitor, feed: Feed, m: string, now: int, later: int)
    returns (first: seq<string>, second: seq<string>, secondFault: Option<Fault>)
    requires monitor.Valid() && now <= later
    modifies monitor
    ensures monitor.Valid()
    ensures var o := Scan(Batch(feed), m, Lookup(old(monitor.lastCves), m), now);
      o.fault.None? ==>
        && second == [] && secondFault.None?
        && monitor.lastCves == (if o.gathered != {} then old(monitor.lastCves)[m := old(monitor.lastCves)[m] + o.gathered]
                                else old(monitor.lastCves))
        && monitor.saves == old(monitor.saves) + (if o.gathered != {} then [monitor.lastCves] else [])
  {
    var fault1;
    first, fault1 := monitor.ProcessCves(feed, m, now);
    ghost var afterFirst := monitor.lastCves;
    second, secondFault := monitor.ProcessCves(feed, m, later);
    if fault1.None? {
      var items := Batch(feed);
      if m in old(monitor.lastCves) {
        var s := old(monitor.lastCves)[m];
        ghost var o := Scan(items, m, Some(s), now);
        ScanIdempotent(items, m, s, now, later);
        if o.gathered == {} {
          assert s + o.gathered == s;
        }
        assert Lookup(afterFirst, m) == Some(s + o.gathered);
      } else {
        NoneSeenStaysQuiet(items, m, now, later);
      }
    }
  }

  /** A vendor without a seen-set whose batch ran without KeyError has no
      passing entry, so a later run of the same batch is quiet too. */
  lemma NoneSeenStaysQuiet(items: seq<CveEntry>, m: string, now: int, later: int)
    requires now <= later
    requires Scan(items, m, None, now).fault.None?
    ensures Scan(items, m, None, later) == Outcome([], {}, None)
  {
    ScanFault(items, m, None, now);
    forall k | 0 <= k < |items|
      ensures IsVulnerable(Severity(items[k]), items[k].modifiedAt, later).Ok?
      ensures !Passes(items[k], later)
    {
      assert !Raises(items[k], None, now);
      if Passes(items[k], later) {
        PassesEarlier(Severity(items[k]), items[k].modifiedAt, now, later);
      }
    }
    ScanQuiet(items, m, None, later);
  }
}
