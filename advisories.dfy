/** The advisory half of the notifier: the articles scraped from the CTIR
    recommendations page are matched against the vendor list and notified
    once per URL, deduplicated against the URLs already recorded in the
    advisory file. Scraping is out: articles arrive as (title, description,
    url) records with the text already stripped. */
module Advisories {
  import opened Text
  import opened Wrappers
  import opened Persistence
  import opened Config

  datatype Article = Article(title: string, description: string, url: string)

  /** `vendor.lower() in description.lower()`. */
  predicate Names(vendor: string, description: string)
  {
    Occurs(Lower(vendor), Lower(description))
  }

  /** Some vendor of the list is named in the description. */
  predicate MentionsVendor(description: string, vendors: seq<string>)
  {
    exists j :: 0 <= j < |vendors| && Names(vendors[j], description)
  }

  /** The text sent for one article. */
  function Notice(a: Article): string
  {
    a.title + "\n" + a.description + "\n" + a.url
  }

  /** What the pass over the page has produced so far: the messages sent, the
      advisory map, and the `new_recommendations_found` flag. */
  datatype Sweep = Sweep(sent: seq<string>, recorded: map<string, Recorded>, found: bool)

  /** One article: notified and recorded when it names a vendor and its URL
      is not yet recorded. */
  function Visit(o: Sweep, a: Article, vendors: seq<string>): Sweep
  {
    if MentionsVendor(a.description, vendors) && a.url !in o.recorded then
      Sweep(o.sent + [Notice(a)], o.recorded[a.url := Entry(a.title, a.description)], true)
    else o
  }

  /** The pass over `articles`, in page order, starting from `recorded`:
      recorded URLs are kept with their values, at most one message goes out
      per article, and the flag is set exactly when something was sent. */
  function Review(articles: seq<Article>, vendors: seq<string>, recorded: map<string, Recorded>): (o: Sweep)
    ensures recorded.Keys <= o.recorded.Keys
    ensures forall u :: u in recorded ==> o.recorded[u] == recorded[u]
    ensures |o.sent| <= |articles|
    ensures o.found <==> o.sent != []
    decreases |articles|
  {
    if |articles| == 0 then Sweep([], recorded, false)
    else Visit(Review(articles[..|articles| - 1], vendors, recorded), articles[|articles| - 1], vendors)
  }

  /** Recorded URLs are never removed or overwritten, and the URL of every
      article that names a vendor ends up recorded. */
  lemma {:induction false} ReviewRecords(articles: seq<Article>, vendors: seq<string>, recorded: map<string, Recorded>)
    ensures var o := Review(articles, vendors, recorded);
      && (forall u :: u in o.recorded <==>
            u in recorded || exists i :: 0 <= i < |articles| && articles[i].url == u &&
                                         MentionsVendor(articles[i].description, vendors))
      && (forall u :: u in recorded ==> o.recorded[u] == recorded[u])
    decreases |articles|
  {
    if |articles| > 0 {
      var init := articles[..|articles| - 1];
      ReviewRecords(init, vendors, recorded);
      assert forall i :: 0 <= i < |init| ==> init[i] == articles[i];
      var o := Review(articles, vendors, recorded);
      forall u | u in o.recorded && u !in recorded
        ensures exists i :: 0 <= i < |articles| && articles[i].url == u &&
                            MentionsVendor(articles[i].description, vendors)
      {
        if u !in Review(init, vendors, recorded).recorded {
          assert articles[|articles| - 1].url == u;
        }
      }
    }
  }

  /** Each message records one URL that was not recorded before, so no URL
      is notified twice. */
  lemma {:induction false} ReviewOnePerUrl(articles: seq<Article>, vendors: seq<string>, recorded: map<string, Recorded>)
    ensures var o := Review(articles, vendors, recorded);
      |o.sent| == |o.recorded.Keys - recorded.Keys|
    decreases |articles|
  {
    if |articles| > 0 {
      var init := articles[..|articles| - 1];
      var a := articles[|articles| - 1];
      ReviewOnePerUrl(init, vendors, recorded);
      var p := Review(init, vendors, recorded);
      var o := Review(articles, vendors, recorded);
      if MentionsVendor(a.description, vendors) && a.url !in p.recorded {
        NewKeyCount(p.recorded, recorded, a.url, Entry(a.title, a.description));
      }
    }
  }

  lemma NewKeyCount(now: map<string, Recorded>, start: map<string, Recorded>, u: string, v: Recorded)
    requires u !in now && start.Keys <= now.Keys
    ensures |now[u := v].Keys - start.Keys| == |now.Keys - start.Keys| + 1
  {
    assert now[u := v].Keys - start.Keys == (now.Keys - start.Keys) + {u};
  }

  /** Every message is the notice of an article that names a vendor and
      whose URL was not recorded at the start. */
  lemma {:induction false} ReviewSendsMatches(articles: seq<Article>, vendors: seq<string>, recorded: map<string, Recorded>)
    ensures var o := Review(articles, vendors, recorded);
      forall k :: 0 <= k < |o.sent| ==>
        exists i :: 0 <= i < |articles| && o.sent[k] == Notice(articles[i]) &&
                    MentionsVendor(articles[i].description, vendors) && articles[i].url !in recorded
    decreases |articles|
  {
    if |articles| > 0 {
      var init := articles[..|articles| - 1];
      var a := articles[|articles| - 1];
      ReviewSendsMatches(init, vendors, recorded);
      ReviewRecords(init, vendors, recorded);
      assert forall i :: 0 <= i < |init| ==> init[i] == articles[i];
      var p := Review(init, vendors, recorded);
      var o := Review(articles, vendors, recorded);
      forall k | 0 <= k < |p.sent|
        ensures exists i :: 0 <= i < |articles| && p.sent[k] == Notice(articles[i]) &&
                            MentionsVendor(articles[i].description, vendors) && articles[i].url !in recorded
      {
        var i :| 0 <= i < |init| && p.sent[k] == Notice(init[i]) &&
                 MentionsVendor(init[i].description, vendors) && init[i].url !in recorded;
        assert articles[i] == init[i];
      }
      var fires := MentionsVendor(a.description, vendors) && a.url !in p.recorded;
      assert o.sent == if fires then p.sent + [Notice(a)] else p.sent;
      forall k | 0 <= k < |o.sent|
        ensures exists i :: 0 <= i < |articles| && o.sent[k] == Notice(articles[i]) &&
                            MentionsVendor(articles[i].description, vendors) && articles[i].url !in recorded
      {
        if k < |p.sent| {
          assert o.sent[k] == p.sent[k];
        } else {
          assert fires && o.sent[k] == Notice(articles[|articles| - 1]);
        }
      }
    }
  }

  /** The last article of a page is notified exactly when it names a vendor,
      its URL was not recorded at the start, and no earlier article that
      names a vendor has the same URL. */
  lemma ReviewNotifiesLast(articles: seq<Article>, a: Article, vendors: seq<string>, recorded: map<string, Recorded>)
    ensures |Review(articles + [a], vendors, recorded).sent| == |Review(articles, vendors, recorded).sent| + 1 <==>
              MentionsVendor(a.description, vendors) && a.url !in recorded &&
              forall i :: 0 <= i < |articles| && MentionsVendor(articles[i].description, vendors) ==> articles[i].url != a.url
    ensures |Review(articles + [a], vendors, recorded).sent| <= |Review(articles, vendors, recorded).sent| + 1
  {
    assert (articles + [a])[..|articles|] == articles;
    ReviewRecords(articles, vendors, recorded);
  }

  /** A page whose vendor-naming articles are all recorded sends nothing and
      changes nothing. */
  lemma {:induction false} ReviewQuiet(articles: seq<Article>, vendors: seq<string>, recorded: map<string, Recorded>)
    requires forall i :: 0 <= i < |articles| && MentionsVendor(articles[i].description, vendors) ==>
               articles[i].url in recorded
    ensures Review(articles, vendors, recorded) == Sweep([], recorded, false)
    decreases |articles|
  {
    if |articles| > 0 {
      var init := articles[..|articles| - 1];
      assert forall i :: 0 <= i < |init| ==> init[i] == articles[i];
      ReviewQuiet(init, vendors, recorded);
    }
  }

  /** Scraping the same page again, in the same run or after the advisory
      file was saved and loaded back, sends nothing. */
  lemma ReviewIdempotent(articles: seq<Article>, vendors: seq<string>, recorded: map<string, Recorded>)
    ensures var after := Review(articles, vendors, recorded).recorded;
      && Review(articles, vendors, after) == Sweep([], after, false)
      && Review(articles, vendors, Reload(Load(Json(DumpRecorded(after))))).sent == []
  {
    var after := Review(articles, vendors, recorded).recorded;
    ReviewRecords(articles, vendors, recorded);
    ReviewQuiet(articles, vendors, after);
    LoadDumpRecorded(after);
    ReviewQuiet(articles, vendors, Reload(Load(Json(DumpRecorded(after)))));
  }

  /** `check_recommendations`: load the advisory file, walk the articles and,
      for each, the vendors in order; the first vendor named in the
      description, when the URL is not recorded yet, sends the notice,
      records the URL and stops the inner loop. `saved` is the map handed to
      `save_data`, present only when something new was found. */
  method CheckRecommendations(file: FileState, articles: seq<Article>)
    returns (sent: seq<string>, saved: Option<map<string, Recorded>>)
    ensures var o := Review(articles, Manufacturers, Reload(Load(file)));
      && sent == o.sent
      && (saved.Some? <==> sent != [])
      && (saved.Some? ==> saved.value == o.recorded)
    ensures |sent| <= |articles|
    ensures saved.Some? ==> Load(file).Keys <= saved.value.Keys
  {
    ghost var start := Reload(Load(file));
    var recorded := Reload(Load(file));
    var found := false;
    sent := [];
    var i := 0;
    while i < |articles|
      invariant 0 <= i <= |articles|
      invariant Review(articles[..i], Manufacturers, start) == Sweep(sent, recorded, found)
    {
      var a := articles[i];
      ghost var before := Sweep(sent, recorded, found);
      var j := 0;
      while j < |Manufacturers|
        invariant 0 <= j <= |Manufacturers|
        invariant Sweep(sent, recorded, found) == before
        invariant forall k :: 0 <= k < j ==> !(Names(Manufacturers[k], a.description) && a.url !in recorded)
      {
        if Occurs(Lower(Manufacturers[j]), Lower(a.description)) {
          if a.url !in recorded {
            sent := sent + [Notice(a)];
            recorded := recorded[a.url := Entry(a.title, a.description)];
            found := true;
            break;
          }
        }
        j := j + 1;
      }
      assert Sweep(sent, recorded, found) == Visit(before, a, Manufacturers);
      assert articles[..i + 1][..i] == articles[..i];
      i := i + 1;
    }
    assert articles[..i] == articles;
    ReviewOnePerUrl(articles, Manufacturers, start);
    saved := if found then Some(recorded) else None;
  }
}
