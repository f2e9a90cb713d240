/** The two JSON state files, taken as values: `save_data` turns a map of
    sets into a map of lists, `load_data` turns one back, and a missing or
    unreadable file loads as the empty map. */
module Persistence {
  import opened Config

  /** What `load_data` finds on disk: no file, a file whose text is not
      valid JSON, or a JSON object of string lists. */
  datatype FileState = Missing | Corrupt | Json(content: map<string, seq<string>>)

  predicate Distinct(xs: seq<string>)
  {
    forall i, j :: 0 <= i < j < |xs| ==> xs[i] != xs[j]
  }

  /** `load_data`: each list becomes the set of its items; anything but a
      JSON object loads as `{}`. */
  function Load(f: FileState): (m: map<string, set<string>>)
    ensures !f.Json? ==> m == map[]
    ensures f.Json? ==> m.Keys == f.content.Keys &&
                        forall k, x :: k in m ==> (x in m[k] <==> x in f.content[k])
  {
    match f
    case Json(c) => map k | k in c :: set x | x in c[k]
    case _ => map[]
  }

  /** `list(v)` of a set: its elements once each, in some order. */
  ghost function SetToList(s: set<string>): (xs: seq<string>)
    ensures |xs| == |s| && Distinct(xs)
    ensures forall x :: x in xs <==> x in s
    decreases s
  {
    if s == {} then []
    else
      var x :| x in s;
      var rest := SetToList(s - {x});
      [x] + rest
  }

  /** The object `save_data` writes for the seen-set map. */
  ghost function DumpSets(m: map<string, set<string>>): (j: map<string, seq<string>>)
    ensures j.Keys == m.Keys
    ensures forall k :: k in j ==> Distinct(j[k]) && |j[k]| == |m[k]| &&
                                   forall x :: x in j[k] <==> x in m[k]
  {
    map k | k in m :: SetToList(m[k])
  }

  /** Saving a map of sets and loading it back gives the same map. */
  lemma LoadDumpSets(m: map<string, set<string>>)
    ensures Load(Json(DumpSets(m))) == m
  {
    var back := Load(Json(DumpSets(m)));
    forall k | k in m
      ensures back[k] == m[k]
    {
      assert forall x :: x in back[k] <==> x in m[k];
    }
  }

  /** Loading a file and saving the result keeps its keys and the items under
      each, dropping only order and repeats. */
  lemma DumpLoadSets(c: map<string, seq<string>>)
    ensures DumpSets(Load(Json(c))).Keys == c.Keys
    ensures forall k, x :: k in c ==> (x in DumpSets(Load(Json(c)))[k] <==> x in c[k])
    ensures forall k :: k in c ==> Distinct(DumpSets(Load(Json(c)))[k])
  {
  }

  /** `load_data(...) or {m: set() for m in manufacturers}`: an empty load
      falls back to every vendor with an empty seen-set. */
  function InitialStore(loaded: map<string, set<string>>, vendors: seq<string>): (r: map<string, set<string>>)
    ensures loaded != map[] ==> r == loaded
    ensures loaded == map[] ==> forall v :: v in r <==> v in vendors
    ensures loaded == map[] ==> forall v :: v in r ==> r[v] == {}
  {
    if loaded != map[] then loaded else map v | v in vendors :: {}
  }

  /** A missing or corrupt file leaves every configured vendor with an empty
      seen-set, so no vendor of the list can hit a missing key. */
  lemma FallbackCoversVendors(f: FileState)
    requires !f.Json? || f.content == map[]
    ensures forall k :: 0 <= k < |Manufacturers| ==>
              Manufacturers[k] in InitialStore(Load(f), Manufacturers) &&
              InitialStore(Load(f), Manufacturers)[Manufacturers[k]] == {}
  {
    assert Load(f) == map[];
  }

  // ---------------------------------------------------------------------
  // The advisory file

  /** A value in the advisory map: the `{'title', 'description'}` dict this
      run recorded, or the set that loading an earlier save produced. */
  datatype Recorded = Entry(title: string, description: string) | Reloaded(fields: set<string>)

  /** `list(v)` of a recorded value: a dict lists its keys in insertion
      order, a set its elements. */
  ghost function RecordedToList(v: Recorded): seq<string>
  {
    match v
    case Entry(_, _) => ["title", "description"]
    case Reloaded(s) => SetToList(s)
  }

  /** The object `save_data` writes for the advisory map: one list per URL,
      the key names of a dict recorded in this run, or the elements of a
      reloaded set once each. */
  ghost function DumpRecorded(r: map<string, Recorded>): (j: map<string, seq<string>>)
    ensures j.Keys == r.Keys
    ensures forall k :: k in r && r[k].Entry? ==> j[k] == ["title", "description"]
    ensures forall k :: k in r && r[k].Reloaded? ==>
              Distinct(j[k]) && forall x :: x in j[k] <==> x in r[k].fields
  {
    map k | k in r :: RecordedToList(r[k])
  }

  /** The advisory map as `check_recommendations` starts it from a load. */
  function Reload(loaded: map<string, set<string>>): map<string, Recorded>
  {
    map k | k in loaded :: Reloaded(loaded[k])
  }

  /** A recorded value saved as a list and read back as a set. */
  lemma RecordedRoundTrip(v: Recorded)
    ensures v.Entry? ==> (set x | x in RecordedToList(v)) == {"title", "description"}
    ensures v.Reloaded? ==> (set x | x in RecordedToList(v)) == v.fields
  {
    if v.Entry? {
      assert RecordedToList(v) == ["title", "description"];
    }
  }

  /** Saving the advisory map and loading it back keeps every URL; a recorded
      dict comes back as the set of its two key names, not its contents. */
  lemma LoadDumpRecorded(r: map<string, Recorded>)
    ensures Load(Json(DumpRecorded(r))).Keys == r.Keys
    ensures forall k :: k in r && r[k].Entry? ==> Load(Json(DumpRecorded(r)))[k] == {"title", "description"}
    ensures forall k :: k in r && r[k].Reloaded? ==> Load(Json(DumpRecorded(r)))[k] == r[k].fields
  {
    var j := DumpRecorded(r);
    forall k | k in r
      ensures r[k].Entry? ==> Load(Json(j))[k] == {"title", "description"}
      ensures r[k].Reloaded? ==> Load(Json(j))[k] == r[k].fields
    {
      assert j[k] == RecordedToList(r[k]);
      assert Load(Json(j))[k] == set x | x in j[k];
      RecordedRoundTrip(r[k]);
    }
  }
}
