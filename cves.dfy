/** The pure half of the CVE pass: normalising one feed entry, the
    severity-and-recency filter, the message template, and `Scan`, the
    specification of the per-vendor batch loop that `Monitor.CveMonitor`
    runs. */
module Cves {
  import opened Text
  import opened Wrappers

  /** The exceptions the batch loop can raise: a vendor missing from the
      seen-set map, or a CRITICAL entry whose date text does not parse. */
  datatype Fault = KeyError(key: string) | ValueError

  /** One entry of the feed's `CVE_Items`. `modifiedAt` is the instant
      written in `lastModifiedDate`, in minutes since the epoch (UTC), or
      `None` when that text does not have the form `%Y-%m-%dT%H:%MZ`.
      `baseSeverity` is `None` when the CVSS v3 block is absent. */
  datatype CveEntry = CveEntry(
    id: string,
    lastModifiedDate: string,
    modifiedAt: Option<int>,
    description: string,
    baseSeverity: Option<string>,
    references: seq<string>)

  /** The six-tuple `(id, date_str, desc, severity, refs, fix_url)`. */
  datatype CveDetails = CveDetails(
    id: string,
    date: string,
    description: string,
    severity: string,
    refs: string,
    fixUrl: string)

  const Critical: string := "CRITICAL"
  const Unknown: string := "unknown"
  const MinutesPerDay: int := 1440
  const WindowDays: int := 15

  /** A reference URL that points at a remedy: its lower-case form contains
      "patch" or "fix". */
  predicate MentionsFix(url: string)
  {
    Occurs("patch", Lower(url)) || Occurs("fix", Lower(url))
  }

  /** The first reference URL that mentions a remedy, or "" when none does. */
  function FixUrl(refs: seq<string>): (r: string)
    ensures r == "" <==> forall i :: 0 <= i < |refs| ==> !MentionsFix(refs[i])
    ensures r != "" ==> exists i :: 0 <= i < |refs| && refs[i] == r && MentionsFix(r) &&
                                    forall j :: 0 <= j < i ==> !MentionsFix(refs[j])
    decreases |refs|
  {
    if |refs| == 0 then ""
    else if MentionsFix(refs[0]) then
      assert !MentionsFix("") by {
        assert Lower("") == "";
      }
      refs[0]
    else
      var r := FixUrl(refs[1..]);
      assert forall i :: 1 <= i < |refs| ==> refs[i] == refs[1..][i - 1];
      r
  }

  /** The CVSS v3 base severity, or "unknown" when that block is absent. */
  function Severity(c: CveEntry): string
  {
    if c.baseSeverity.Some? then c.baseSeverity.value else Unknown
  }

  /** Normalises one entry. The reference list and the remediation link are
      only computed for CRITICAL entries; `ExtractedLinks` says what they
      hold. */
  function ExtractCveDetails(c: CveEntry): (d: CveDetails)
    ensures d.id == c.id && d.date == c.lastModifiedDate && d.description == c.description
    ensures d.severity == Severity(c)
    ensures d.severity != Critical ==> d.refs == "" && d.fixUrl == ""
  {
    var severity := Severity(c);
    if severity == Critical then
      CveDetails(c.id, c.lastModifiedDate, c.description, severity, Join("\n", c.references), FixUrl(c.references))
    else
      CveDetails(c.id, c.lastModifiedDate, c.description, severity, "", "")
  }

  /** For a CRITICAL entry, `refs` is the reference URLs joined by newlines
      in feed order, so it carries every one of them, and `fix_url` is the
      first one that mentions a remedy, or "". */
  lemma ExtractedLinks(c: CveEntry)
    requires Severity(c) == Critical
    ensures var d := ExtractCveDetails(c);
      && d.refs == Join("\n", c.references)
      && (forall k :: 0 <= k < |c.references| ==> Occurs(c.references[k], d.refs))
      && (d.fixUrl == "" <==> forall k :: 0 <= k < |c.references| ==> !MentionsFix(c.references[k]))
      && (d.fixUrl != "" ==> exists i :: 0 <= i < |c.references| && c.references[i] == d.fixUrl &&
                                         MentionsFix(d.fixUrl) &&
                                         forall j :: 0 <= j < i ==> !MentionsFix(c.references[j]))
  {
    var d := ExtractCveDetails(c);
    forall k | 0 <= k < |c.references|
      ensures Occurs(c.references[k], d.refs)
    {
      JoinContainsEach("\n", c.references, k);
    }
  }

  /** Whole days from `t` to `now`, rounded down, as `timedelta.days` does. */
  function DaysSince(t: int, now: int): int
  {
    (now - t) / MinutesPerDay
  }

  /** CRITICAL and last modified at most 15 whole days ago. The date is only
      parsed for CRITICAL entries, so only they can raise ValueError. */
  function IsVulnerable(severity: string, modifiedAt: Option<int>, now: int): (r: Result<bool, Fault>)
    ensures severity != Critical ==> r == Ok(false)
    ensures r.Err? <==> severity == Critical && modifiedAt.None?
    ensures r.Err? ==> r.error == ValueError
    ensures r == Ok(true) <==>
              severity == Critical && modifiedAt.Some? &&
              now - modifiedAt.value < (WindowDays + 1) * MinutesPerDay
  {
    if severity != Critical then Ok(false)
    else if modifiedAt.None? then Err(ValueError)
    else Ok(DaysSince(modifiedAt.value, now) <= WindowDays)
  }

  /** The notification text for one new CVE: it names the vendor and carries
      every field, and the remediation line with the fix URL is added only
      when one was found (`MessageFixLine`). */
  function ConstructMessage(m: string, d: CveDetails): (msg: string)
    ensures forall t :: t in [m, d.id, d.description, d.severity, d.refs, d.date] ==> Occurs(t, msg)
    ensures d.fixUrl != "" ==> Occurs(d.fixUrl, msg)
  {
    var body := MessageBody(m, d.id, d.description, d.severity, d.refs, d.date);
    BodyEmbedsFields(m, d.id, d.description, d.severity, d.refs, d.date, FixPart(d.fixUrl));
    FixPartAppended(body, d.fixUrl);
    body + FixPart(d.fixUrl)
  }

  /** The fixed template, nested to the right so that each field is followed
      by the rest of the text. */
  function MessageBody(m: string, id: string, description: string, severity: string,
                       refs: string, date: string): string
  {
    "Foi encontrada nova CVE (Critica) atualizada nos últimos 15 dias para " + (m +
    (":\n\n" + (id +
    (":\nDescrição: " + (description +
    ("\nGravidade: " + (severity +
    ("\nReferências: " + (refs +
    ("\nÚltima modificação: " + (date + "\n\n")))))))))))
  }

  function FixPart(fixUrl: string): string
  {
    if fixUrl != "" then "Método de correção: " + fixUrl + "\n\n" else ""
  }

  /** The message without a fix URL is a prefix of the one with it, and it
      grows exactly when the fix URL is non-empty. */
  lemma MessageFixLine(m: string, d: CveDetails)
    ensures ConstructMessage(m, d.(fixUrl := "")) <= ConstructMessage(m, d)
    ensures |ConstructMessage(m, d.(fixUrl := ""))| < |ConstructMessage(m, d)| <==> d.fixUrl != ""
  {
    var base := MessageBody(m, d.id, d.description, d.severity, d.refs, d.date);
    assert ConstructMessage(m, d.(fixUrl := "")) == base + FixPart("");
    assert ConstructMessage(m, d) == base + FixPart(d.fixUrl);
    FixPartAppended(base, d.fixUrl);
  }

  /** Appending the remediation part to any text: it adds nothing exactly
      when the fix URL is empty, and otherwise it carries the URL. */
  lemma FixPartAppended(base: string, fixUrl: string)
    ensures base + FixPart("") <= base + FixPart(fixUrl)
    ensures |base + FixPart("")| < |base + FixPart(fixUrl)| <==> fixUrl != ""
    ensures fixUrl != "" ==> Occurs(fixUrl, base + FixPart(fixUrl))
  {
    assert base + FixPart("") == base;
    var tail := FixPart(fixUrl);
    assert base <= base + tail;
    if fixUrl != "" {
      var pre := "Método de correção: ";
      assert tail == pre + fixUrl + "\n\n";
      assert base + tail == (base + pre) + fixUrl + "\n\n";
      OccursBetween(base + pre, fixUrl, "\n\n");
    }
  }

  /** The template followed by any text names the vendor and carries every
      field. */
  lemma BodyEmbedsFields(m: string, id: string, description: string, severity: string,
                         refs: string, date: string, tail: string)
    ensures var msg := MessageBody(m, id, description, severity, refs, date) + tail;
      Occurs(m, msg) && Occurs(id, msg) && Occurs(description, msg) &&
      Occurs(severity, msg) && Occurs(refs, msg) && Occurs(date, msg)
  {
    var r6 := date + "\n\n";
    var r5 := refs + ("\nÚltima modificação: " + r6);
    var r4 := severity + ("\nReferências: " + r5);
    var r3 := description + ("\nGravidade: " + r4);
    var r2 := id + (":\nDescrição: " + r3);
    var r1 := m + (":\n\n" + r2);
    var body := "Foi encontrada nova CVE (Critica) atualizada nos últimos 15 dias para " + r1;
    assert body == MessageBody(m, id, description, severity, refs, date);
    OccursStart(date, "\n\n");
    OccursPrepend(date, "\nÚltima modificação: ", r6);
    OccursStart(refs, "\nÚltima modificação: " + r6);
    OccursPrepend(refs, "\nReferências: ", r5);
    OccursPrepend(date, refs, "\nÚltima modificação: " + r6);
    OccursPrepend(date, "\nReferências: ", r5);
    AllPrepend([date, refs], "\nReferências: " + r5, severity);
    OccursStart(severity, "\nReferências: " + r5);
    AllPrepend([date, refs, severity], r4, "\nGravidade: ");
    OccursStart(description, "\nGravidade: " + r4);
    AllPrepend([date, refs, severity], "\nGravidade: " + r4, description);
    AllPrepend([date, refs, severity, description], r3, ":\nDescrição: ");
    OccursStart(id, ":\nDescrição: " + r3);
    AllPrepend([date, refs, severity, description], ":\nDescrição: " + r3, id);
    AllPrepend([date, refs, severity, description, id], r2, ":\n\n");
    OccursStart(m, ":\n\n" + r2);
    AllPrepend([date, refs, severity, description, id], ":\n\n" + r2, m);
    AllPrepend([date, refs, severity, description, id, m], r1,
               "Foi encontrada nova CVE (Critica) atualizada nos últimos 15 dias para ");
    forall t | t in [date, refs, severity, description, id, m]
      ensures Occurs(t, body + tail)
    {
      OccursExtend(t, body, tail);
    }
  }

  lemma AllPrepend(ts: seq<string>, s: string, a: string)
    requires forall t :: t in ts ==> Occurs(t, s)
    ensures forall t :: t in ts ==> Occurs(t, a + s)
  {
    forall t | t in ts
      ensures Occurs(t, a + s)
    {
      OccursPrepend(t, a, s);
    }
  }

  /** The recency window in plain minutes: 15 whole days pass, 16 do not, and
      a record dated in the future passes too. */
  lemma RecencyBoundary(t: int)
    ensures IsVulnerable(Critical, Some(t), t + WindowDays * MinutesPerDay) == Ok(true)
    ensures IsVulnerable(Critical, Some(t), t + (WindowDays + 1) * MinutesPerDay) == Ok(false)
    ensures IsVulnerable(Critical, Some(t + 1), t) == Ok(true)
  {
  }

  /** A later clock only shrinks what passes the filter. */
  lemma PassesEarlier(severity: string, modifiedAt: Option<int>, now: int, later: int)
    requires now <= later
    requires IsVulnerable(severity, modifiedAt, later) == Ok(true)
    ensures IsVulnerable(severity, modifiedAt, now) == Ok(true)
  {
  }

  // ---------------------------------------------------------------------
  // The per-vendor batch loop

  /** Passes the severity-and-recency filter at `now`. */
  predicate Passes(c: CveEntry, now: int)
  {
    IsVulnerable(Severity(c), c.modifiedAt, now) == Ok(true)
  }

  /** Processing `c` raises: its date does not parse, or it passes while the
      vendor has no seen-set. */
  predicate Raises(c: CveEntry, seen: Option<set<string>>, now: int)
  {
    IsVulnerable(Severity(c), c.modifiedAt, now).Err? ||
    (Passes(c, now) && seen.None?)
  }

  /** What the loop has produced so far: the messages sent, the ids gathered
      in `new_cves`, and the exception that stopped it, if any. */
  datatype Outcome = Outcome(notices: seq<string>, gathered: set<string>, fault: Option<Fault>)

  /** One iteration of the loop, for entry `c`. */
  function Step(o: Outcome, c: CveEntry, m: string, seen: Option<set<string>>, now: int): Outcome
  {
    var d := ExtractCveDetails(c);
    match IsVulnerable(d.severity, c.modifiedAt, now)
    case Err(f) => o.(fault := Some(f))
    case Ok(v) =>
      if !v then o
      else if seen.None? then o.(fault := Some(KeyError(m)))
      else if d.id in seen.value then o
      else Outcome(o.notices + [ConstructMessage(m, d)], o.gathered + {d.id}, o.fault)
  }

  /** The batch loop over `items` for vendor `m`, whose seen-set before the
      batch is `seen` (`None`: `m` is not a key). The loop stops at the first
      exception; the membership test is against `seen`, never against the
      ids gathered in this batch. */
  function Scan(items: seq<CveEntry>, m: string, seen: Option<set<string>>, now: int): (o: Outcome)
    ensures o.gathered != {} ==> seen.Some? && o.gathered !! seen.value
    decreases |items|
  {
    if |items| == 0 then Outcome([], {}, None)
    else
      var o := Scan(items[..|items| - 1], m, seen, now);
      if o.fault.Some? then o else Step(o, items[|items| - 1], m, seen, now)
  }

  /** The entries that get a notification: passing, and not seen before the
      batch. Duplicates are kept. */
  function Unseen(items: seq<CveEntry>, s: set<string>, now: int): (r: seq<CveEntry>)
    ensures forall k :: 0 <= k < |r| ==> r[k] in items && Passes(r[k], now) && r[k].id !in s
    decreases |items|
  {
    if |items| == 0 then []
    else
      var c := items[|items| - 1];
      var r := Unseen(items[..|items| - 1], s, now);
      if Passes(c, now) && c.id !in s then r + [c] else r
  }

  function Notices(m: string, cs: seq<CveEntry>): (r: seq<string>)
    ensures |r| == |cs|
  {
    seq(|cs|, k requires 0 <= k < |cs| => ConstructMessage(m, ExtractCveDetails(cs[k])))
  }

  /** Extending the batch by one entry runs one more step, unless the loop
      has already raised. */
  lemma ScanNext(items: seq<CveEntry>, i: nat, m: string, seen: Option<set<string>>, now: int)
    requires i < |items|
    ensures var o := Scan(items[..i], m, seen, now);
      Scan(items[..i + 1], m, seen, now) == if o.fault.Some? then o else Step(o, items[i], m, seen, now)
  {
    assert items[..i + 1][..i] == items[..i];
  }

  /** Once the loop has raised, further entries change nothing. */
  lemma {:induction false} ScanStops(items: seq<CveEntry>, n: nat, m: string, seen: Option<set<string>>, now: int)
    requires n <= |items|
    requires Scan(items[..n], m, seen, now).fault.Some?
    ensures Scan(items, m, seen, now) == Scan(items[..n], m, seen, now)
    decreases |items| - n
  {
    if n < |items| {
      assert items[..|items| - 1][..n] == items[..n];
      ScanStops(items[..|items| - 1], n, m, seen, now);
    } else {
      assert items[..n] == items;
    }
  }

  /** The loop ends without an exception exactly when no entry raises. */
  lemma {:induction false} ScanFault(items: seq<CveEntry>, m: string, seen: Option<set<string>>, now: int)
    ensures Scan(items, m, seen, now).fault.None? <==> forall k :: 0 <= k < |items| ==> !Raises(items[k], seen, now)
    decreases |items|
  {
    if |items| > 0 {
      var init := items[..|items| - 1];
      var c := items[|items| - 1];
      ScanFault(init, m, seen, now);
      ScanFaultNext(items, m, seen, now);
      if Scan(items, m, seen, now).fault.None? {
        forall k | 0 <= k < |items|
          ensures !Raises(items[k], seen, now)
        {
          if k < |init| {
            assert init[k] == items[k];
          }
        }
      }
      if forall k :: 0 <= k < |items| ==> !Raises(items[k], seen, now) {
        forall k | 0 <= k < |init|
          ensures !Raises(init[k], seen, now)
        {
          assert init[k] == items[k];
        }
      }
    }
  }

  /** Entry `k` is the first of `items` that raises. */
  predicate FirstRaise(items: seq<CveEntry>, k: int, seen: Option<set<string>>, now: int)
  {
    0 <= k < |items| && Raises(items[k], seen, now) &&
    forall j :: 0 <= j < k ==> !Raises(items[j], seen, now)
  }

  /** The exception an entry that raises raises: ValueError when its date
      does not parse, otherwise KeyError for the vendor. */
  function FaultAt(c: CveEntry, m: string, now: int): Fault
  {
    if IsVulnerable(Severity(c), c.modifiedAt, now).Err? then ValueError else KeyError(m)
  }

  /** When the loop raises, it is at the first entry that raises, and the
      exception is the one that entry raises. */
  lemma {:induction false} ScanFaultKind(items: seq<CveEntry>, m: string, seen: Option<set<string>>, now: int)
    requires Scan(items, m, seen, now).fault.Some?
    ensures exists k :: FirstRaise(items, k, seen, now) &&
                        Scan(items, m, seen, now).fault.value == FaultAt(items[k], m, now)
    decreases |items|
  {
    var init := items[..|items| - 1];
    var o := Scan(init, m, seen, now);
    if o.fault.Some? {
      ScanFaultKind(init, m, seen, now);
      var k :| FirstRaise(init, k, seen, now) && o.fault.value == FaultAt(init[k], m, now);
      assert forall j :: 0 <= j <= k ==> init[j] == items[j];
      assert FirstRaise(items, k, seen, now);
    } else {
      ScanFault(init, m, seen, now);
      ScanRaisesLast(items, m, seen, now);
      var k := |items| - 1;
      assert forall j :: 0 <= j < k ==> init[j] == items[j];
      assert FirstRaise(items, k, seen, now);
    }
  }

  /** A clean prefix followed by a raising step: the last entry raises, and
      the exception is its own. */
  lemma ScanRaisesLast(items: seq<CveEntry>, m: string, seen: Option<set<string>>, now: int)
    requires |items| > 0
    requires Scan(items[..|items| - 1], m, seen, now).fault.None?
    requires Scan(items, m, seen, now).fault.Some?
    ensures Raises(items[|items| - 1], seen, now)
    ensures Scan(items, m, seen, now).fault.value == FaultAt(items[|items| - 1], m, now)
  {
    ScanFaultNext(items, m, seen, now);
  }

  /** The batch raises exactly when its shorter prefix raised or its last
      entry raises. */
  lemma ScanFaultNext(items: seq<CveEntry>, m: string, seen: Option<set<string>>, now: int)
    requires |items| > 0
    ensures Scan(items, m, seen, now).fault.None? <==>
              Scan(items[..|items| - 1], m, seen, now).fault.None? && !Raises(items[|items| - 1], seen, now)
  {
    var o := Scan(items[..|items| - 1], m, seen, now);
    if o.fault.None? {
      StepFault(o, items[|items| - 1], m, seen, now);
    }
  }

  /** A step raises exactly when its entry does. */
  lemma StepFault(o: Outcome, c: CveEntry, m: string, seen: Option<set<string>>, now: int)
    requires o.fault.None?
    ensures Step(o, c, m, seen, now).fault.None? <==> !Raises(c, seen, now)
  {
  }

  lemma NoticesSnoc(m: string, cs: seq<CveEntry>, c: CveEntry)
    ensures Notices(m, cs + [c]) == Notices(m, cs) + [ConstructMessage(m, ExtractCveDetails(c))]
  {
  }

  /** Without an exception, the batch sends one message per passing entry
      unseen before the batch, in feed order, and gathers exactly their ids. */
  lemma {:induction false} ScanSendsUnseen(items: seq<CveEntry>, m: string, s: set<string>, now: int)
    requires Scan(items, m, Some(s), now).fault.None?
    ensures Scan(items, m, Some(s), now).notices == Notices(m, Unseen(items, s, now))
    ensures Scan(items, m, Some(s), now).gathered == Ids(Unseen(items, s, now))
    decreases |items|
  {
    if |items| > 0 {
      var init := items[..|items| - 1];
      var c := items[|items| - 1];
      var o := Scan(init, m, Some(s), now);
      assert o.fault.None?;
      ScanSendsUnseen(init, m, s, now);
      StepUnseen(o, c, m, s, now);
      NoticesSnoc(m, Unseen(init, s, now), c);
      IdsSnoc(Unseen(init, s, now), c);
    }
  }

  /** A step that does not raise sends and gathers exactly when its entry
      passes and was not seen. */
  lemma StepUnseen(o: Outcome, c: CveEntry, m: string, s: set<string>, now: int)
    requires o.fault.None? && Step(o, c, m, Some(s), now).fault.None?
    ensures Step(o, c, m, Some(s), now) ==
              if Passes(c, now) && c.id !in s
              then Outcome(o.notices + [ConstructMessage(m, ExtractCveDetails(c))], o.gathered + {c.id}, None)
              else o
  {
  }

  /** The ids of a sequence of entries. */
  function Ids(cs: seq<CveEntry>): (r: set<string>)
    ensures forall k :: 0 <= k < |cs| ==> cs[k].id in r
  {
    set k | 0 <= k < |cs| :: cs[k].id
  }

  lemma IdsSnoc(cs: seq<CveEntry>, c: CveEntry)
    ensures Ids(cs + [c]) == Ids(cs) + {c.id}
  {
    var l := cs + [c];
    forall x | x in Ids(l)
      ensures x in Ids(cs) + {c.id}
    {
      var k :| 0 <= k < |l| && l[k].id == x;
      if k < |cs| {
        assert cs[k] == l[k];
      }
    }
    assert forall k :: 0 <= k < |cs| ==> cs[k] == l[k];
    assert l[|cs|] == c;
  }

  /** The ids gathered are exactly those of the passing entries that were not
      seen before the batch. */
  lemma UnseenIds(items: seq<CveEntry>, s: set<string>, now: int)
    ensures forall x :: x in Ids(Unseen(items, s, now)) <==>
              x !in s && exists k :: 0 <= k < |items| && items[k].id == x && Passes(items[k], now)
  {
    UnseenIdsComplete(items, s, now);
    var r := Unseen(items, s, now);
    forall x | x in Ids(r)
      ensures x !in s && exists k :: 0 <= k < |items| && items[k].id == x && Passes(items[k], now)
    {
      var j :| 0 <= j < |r| && r[j].id == x;
      var k :| 0 <= k < |items| && items[k] == r[j];
    }
  }

  lemma {:induction false} UnseenIdsComplete(items: seq<CveEntry>, s: set<string>, now: int)
    ensures forall k :: 0 <= k < |items| && Passes(items[k], now) && items[k].id !in s ==>
              items[k].id in Ids(Unseen(items, s, now))
    decreases |items|
  {
    if |items| > 0 {
      var init := items[..|items| - 1];
      var c := items[|items| - 1];
      var r0 := Unseen(init, s, now);
      var r := Unseen(items, s, now);
      UnseenIdsComplete(init, s, now);
      UnseenIdsGrow(items, s, now);
      forall k | 0 <= k < |items| && Passes(items[k], now) && items[k].id !in s
        ensures items[k].id in Ids(r)
      {
        if k < |init| {
          assert init[k] == items[k];
          assert items[k].id in Ids(r0);
        } else {
          assert items[k] == c;
        }
      }
    }
  }

  /** One more entry keeps every gathered id and adds its own when it
      passes unseen. */
  lemma UnseenIdsGrow(items: seq<CveEntry>, s: set<string>, now: int)
    requires |items| > 0
    ensures Ids(Unseen(items[..|items| - 1], s, now)) <= Ids(Unseen(items, s, now))
    ensures var c := items[|items| - 1];
      Passes(c, now) && c.id !in s ==> c.id in Ids(Unseen(items, s, now))
  {
    IdsSnoc(Unseen(items[..|items| - 1], s, now), items[|items| - 1]);
  }

  /** A batch in which nothing raises and every entry that passes is already
      seen sends nothing and gathers nothing. */
  lemma {:induction false} ScanQuiet(items: seq<CveEntry>, m: string, seen: Option<set<string>>, now: int)
    requires forall k :: 0 <= k < |items| ==>
               IsVulnerable(Severity(items[k]), items[k].modifiedAt, now).Ok? &&
               (Passes(items[k], now) ==> seen.Some? && items[k].id in seen.value)
    ensures Scan(items, m, seen, now) == Outcome([], {}, None)
    decreases |items|
  {
    if |items| > 0 {
      var init := items[..|items| - 1];
      assert forall k :: 0 <= k < |init| ==> init[k] == items[k];
      ScanQuiet(init, m, seen, now);
    }
  }

  /** Re-running a batch that finished cleanly, against the seen-set it left
      behind and at the same or a later time, sends nothing. */
  lemma ScanIdempotent(items: seq<CveEntry>, m: string, s: set<string>, now: int, later: int)
    requires now <= later
    requires Scan(items, m, Some(s), now).fault.None?
    ensures Scan(items, m, Some(s + Scan(items, m, Some(s), now).gathered), later) == Outcome([], {}, None)
  {
    var o := Scan(items, m, Some(s), now);
    ScanFault(items, m, Some(s), now);
    ScanSendsUnseen(items, m, s, now);
    UnseenIds(items, s, now);
    forall k | 0 <= k < |items|
      ensures IsVulnerable(Severity(items[k]), items[k].modifiedAt, later).Ok?
      ensures Passes(items[k], later) ==> items[k].id in s + o.gathered
    {
      assert !Raises(items[k], Some(s), now);
      if Passes(items[k], later) {
        PassesEarlier(Severity(items[k]), items[k].modifiedAt, now, later);
      }
    }
    ScanQuiet(items, m, Some(s + o.gathered), later);
  }

  /** A duplicate id inside one batch is notified twice but recorded once. */
  lemma DuplicateInBatch(c: CveEntry, m: string, s: set<string>, now: int)
    requires Passes(c, now) && c.id !in s
    ensures |Scan([c, c], m, Some(s), now).notices| == 2
    ensures Scan([c, c], m, Some(s), now).gathered == {c.id}
  {
    var msg := ConstructMessage(m, ExtractCveDetails(c));
    assert [c][..0] == [];
    assert Scan([c], m, Some(s), now) == Outcome([msg], {c.id}, None);
    assert [c, c][..1] == [c];
    assert Scan([c, c], m, Some(s), now) == Outcome([msg, msg], {c.id}, None);
  }
}
