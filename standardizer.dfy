/** The ontology standardizer: case-insensitive substring matching of each
    canonical term's synonyms, at most one entity per canonical term, and a
    summary of the sorted distinct canonical terms per category. */
module Standardizer {
  import opened Basics
  import opened Text

  /** One canonical term of a category with its synonyms, in file order. */
  datatype OntologyEntry = OntologyEntry(canonical: string, synonyms: seq<string>)

  /** Category name to its entries, in the order the ontology lists them. */
  type Ontology = map<string, seq<OntologyEntry>>

  datatype Entity = Entity(canonical: string, matched: string, category: string)

  datatype StandardizationResult = StandardizationResult(entities: map<string, seq<Entity>>, normalizedSummary: string)

  /** Synonym `s`, lower-cased, occurs in the lower-cased text. */
  predicate Mentions(textLower: string, s: string) {
    Contains(textLower, Lower(s))
  }

  /** The first synonym, in list order, that the text mentions. */
  function FirstSynonym(synonyms: seq<string>, textLower: string): Option<string> {
    if synonyms == [] then None
    else if Mentions(textLower, synonyms[0]) then Some(synonyms[0])
    else FirstSynonym(synonyms[1..], textLower)
  }

  /** The entity an entry contributes: none, or one for its first mentioned synonym. */
  function EntryEntities(e: OntologyEntry, textLower: string, category: string): seq<Entity> {
    match FirstSynonym(e.synonyms, textLower)
    case None => []
    case Some(s) => [Entity(e.canonical, s, category)]
  }

  function MatchEntries(entries: seq<OntologyEntry>, textLower: string, category: string): seq<Entity> {
    if entries == [] then []
    else MatchEntries(entries[..|entries| - 1], textLower, category)
         + EntryEntities(entries[|entries| - 1], textLower, category)
  }

  /** What `_match_category` returns; a category missing from the ontology yields no entities. */
  function CategoryEntities(ontology: Ontology, text: string, category: string): seq<Entity> {
    if category in ontology then MatchEntries(ontology[category], Lower(text), category) else []
  }

  /** `FirstSynonym` finds some synonym exactly when one is mentioned, and the one it
      finds is the first mentioned in list order. */
  lemma {:induction false} FirstSynonymIsFirst(synonyms: seq<string>, textLower: string)
    ensures FirstSynonym(synonyms, textLower).None?
            <==> forall j :: 0 <= j < |synonyms| ==> !Mentions(textLower, synonyms[j])
    ensures FirstSynonym(synonyms, textLower).Some? ==>
              exists i :: 0 <= i < |synonyms| && synonyms[i] == FirstSynonym(synonyms, textLower).value
                          && Mentions(textLower, synonyms[i])
                          && forall j :: 0 <= j < i ==> !Mentions(textLower, synonyms[j])
  {
    if synonyms != [] && !Mentions(textLower, synonyms[0]) {
      FirstSynonymIsFirst(synonyms[1..], textLower);
      if FirstSynonym(synonyms[1..], textLower).Some? {
        var i :| 0 <= i < |synonyms[1..]| && synonyms[1..][i] == FirstSynonym(synonyms[1..], textLower).value
                 && Mentions(textLower, synonyms[1..][i])
                 && forall j :: 0 <= j < i ==> !Mentions(textLower, synonyms[1..][j]);
        assert synonyms[i + 1] == synonyms[1..][i];
        forall j | 0 <= j < i + 1 ensures !Mentions(textLower, synonyms[j]) {
          if j > 0 {
            assert synonyms[j] == synonyms[1..][j - 1];
          }
        }
      } else {
        forall j | 0 <= j < |synonyms| ensures !Mentions(textLower, synonyms[j]) {
          if j > 0 {
            assert synonyms[j] == synonyms[1..][j - 1];
          }
        }
      }
    }
  }

  /** Skipping synonyms that are not mentioned does not change the first match. */
  lemma {:induction false} FirstSynonymSkip(synonyms: seq<string>, textLower: string, k: nat)
    requires k <= |synonyms|
    requires forall j :: 0 <= j < k ==> !Mentions(textLower, synonyms[j])
    ensures FirstSynonym(synonyms, textLower) == FirstSynonym(synonyms[k..], textLower)
  {
    if k > 0 {
      FirstSynonymSkip(synonyms[1..], textLower, k - 1);
      assert synonyms[1..][k - 1..] == synonyms[k..];
    }
  }

  /** `_match_category`: the loop over canonical terms, with the inner loop over
      synonyms stopping at the first one mentioned. */
  method MatchCategory(ontology: Ontology, text: string, category: string) returns (results: seq<Entity>)
    ensures results == CategoryEntities(ontology, text, category)
  {
    var textLower := Lower(text);
    results := [];
    var entries := if category in ontology then ontology[category] else [];
    var i := 0;
    while i < |entries|
      invariant 0 <= i <= |entries|
      invariant results == MatchEntries(entries[..i], textLower, category)
    {
      var canonical := entries[i].canonical;
      var synonyms := entries[i].synonyms;
      assert entries[..i + 1][..i] == entries[..i];
      var k := 0;
      while k < |synonyms|
        invariant 0 <= k <= |synonyms|
        invariant forall j :: 0 <= j < k ==> !Mentions(textLower, synonyms[j])
        invariant results == MatchEntries(entries[..i], textLower, category)
      {
        if Contains(textLower, Lower(synonyms[k])) {
          FirstSynonymSkip(synonyms, textLower, k);
          results := results + [Entity(canonical, synonyms[k], category)];
          break;
        }
        k := k + 1;
      }
      if k == |synonyms| {
        FirstSynonymSkip(synonyms, textLower, k);
      }
      i := i + 1;
    }
    assert entries[..i] == entries;
  }

  /** An entity is produced for a canonical term exactly when the text mentions one
      of its synonyms, it carries the first mentioned synonym, and it is tagged with
      the queried category. */
  lemma {:induction false} MatchEntriesMembers(entries: seq<OntologyEntry>, textLower: string, category: string, e: Entity)
    ensures e in MatchEntries(entries, textLower, category)
            <==> e.category == category
                 && exists i :: 0 <= i < |entries| && entries[i].canonical == e.canonical
                                && FirstSynonym(entries[i].synonyms, textLower) == Some(e.matched)
  {
    if entries != [] {
      var n := |entries| - 1;
      var prev := MatchEntries(entries[..n], textLower, category);
      var last := EntryEntities(entries[n], textLower, category);
      assert MatchEntries(entries, textLower, category) == prev + last;
      MatchEntriesMembers(entries[..n], textLower, category, e);
      if e in prev {
        var i :| 0 <= i < n && entries[..n][i].canonical == e.canonical
                 && FirstSynonym(entries[..n][i].synonyms, textLower) == Some(e.matched);
        assert entries[i] == entries[..n][i];
      } else if e in last {
        assert entries[n].canonical == e.canonical && FirstSynonym(entries[n].synonyms, textLower) == Some(e.matched);
      }
      if e.category == category && exists i :: 0 <= i < |entries| && entries[i].canonical == e.canonical
                                               && FirstSynonym(entries[i].synonyms, textLower) == Some(e.matched) {
        var i :| 0 <= i < |entries| && entries[i].canonical == e.canonical
                 && FirstSynonym(entries[i].synonyms, textLower) == Some(e.matched);
        if i < n {
          assert entries[..n][i] == entries[i];
          assert e in prev;
        } else {
          assert last == [Entity(entries[n].canonical, e.matched, category)];
          assert e in last;
        }
      }
    }
  }

  /** Entity `x` comes from an entry listed before the one `y` comes from. */
  predicate EarlierEntry(entries: seq<OntologyEntry>, x: Entity, y: Entity) {
    exists i, j :: 0 <= i < j < |entries|
                   && entries[i].canonical == x.canonical
                   && entries[j].canonical == y.canonical
  }

  /** Of any two entities in `r`, the earlier one comes from an earlier entry. */
  predicate InEntryOrder(entries: seq<OntologyEntry>, r: seq<Entity>) {
    forall a, b :: 0 <= a < b < |r| ==> EarlierEntry(entries, r[a], r[b])
  }

  /** Entities follow the ontology's order, and each entry yields at most one of them. */
  lemma {:induction false} MatchEntriesOrdered(entries: seq<OntologyEntry>, textLower: string, category: string)
    ensures |MatchEntries(entries, textLower, category)| <= |entries|
    ensures InEntryOrder(entries, MatchEntries(entries, textLower, category))
    decreases |entries|, 1
  {
    if entries != [] {
      var n := |entries| - 1;
      var r := MatchEntries(entries, textLower, category);
      MatchEntriesOrdered(entries[..n], textLower, category);
      assert |EntryEntities(entries[n], textLower, category)| <= 1;
      forall a, b | 0 <= a < b < |r| ensures EarlierEntry(entries, r[a], r[b]) {
        LastEntryKeepsOrder(entries, textLower, category, a, b);
      }
      assert InEntryOrder(entries, r);
    }
  }

  /** The induction step of `MatchEntriesOrdered` for one pair of positions; it takes the
      hypothesis for all entries but the last from `MatchEntriesOrdered` itself. */
  lemma LastEntryKeepsOrder(entries: seq<OntologyEntry>, textLower: string, category: string, a: nat, b: nat)
    requires entries != []
    requires a < b < |MatchEntries(entries, textLower, category)|
    ensures var r := MatchEntries(entries, textLower, category);
            EarlierEntry(entries, r[a], r[b])
    decreases |entries|, 0
  {
    var n := |entries| - 1;
    MatchEntriesOrdered(entries[..n], textLower, category);
    var prev := MatchEntries(entries[..n], textLower, category);
    var r := MatchEntries(entries, textLower, category);
    assert r == prev + EntryEntities(entries[n], textLower, category);
    assert |EntryEntities(entries[n], textLower, category)| <= 1;
    assert r[a] == prev[a];
    var i: int, j: int;
    if b < |prev| {
      assert r[b] == prev[b];
      assert EarlierEntry(entries[..n], prev[a], prev[b]);
      i, j :| 0 <= i < j < n && entries[..n][i].canonical == prev[a].canonical
              && entries[..n][j].canonical == prev[b].canonical;
      assert entries[i] == entries[..n][i] && entries[j] == entries[..n][j];
    } else {
      assert r[b].canonical == entries[n].canonical;
      assert prev[a] in prev;
      MatchEntriesMembers(entries[..n], textLower, category, prev[a]);
      i :| 0 <= i < n && entries[..n][i].canonical == prev[a].canonical
           && FirstSynonym(entries[..n][i].synonyms, textLower) == Some(prev[a].matched);
      assert entries[i] == entries[..n][i];
      j := n;
    }
    assert 0 <= i < j < |entries| && entries[i].canonical == r[a].canonical
           && entries[j].canonical == r[b].canonical;
  }

  /** A JSON object's keys are distinct: no canonical term is listed twice in a category. */
  predicate DistinctCanonicals(entries: seq<OntologyEntry>) {
    forall i, j :: 0 <= i < j < |entries| ==> entries[i].canonical != entries[j].canonical
  }

  /** With distinct canonical terms, every canonical term yields at most one entity. */
  lemma AtMostOnePerCanonical(entries: seq<OntologyEntry>, textLower: string, category: string)
    requires DistinctCanonicals(entries)
    ensures var r := MatchEntries(entries, textLower, category);
            forall a, b :: 0 <= a < b < |r| ==> r[a].canonical != r[b].canonical
  {
    MatchEntriesOrdered(entries, textLower, category);
  }

  const Categories: set<string> := {"symptoms", "medications", "conditions"}

  /** One summary field: the sorted distinct canonical terms joined by ", ", or "none"
      when that joined string is empty. */
  function SummaryField(entities: seq<Entity>): (r: string)
    ensures r != ""
    ensures entities == [] ==> r == "none"
  {
    var terms := seq(|entities|, k requires 0 <= k < |entities| => entities[k].canonical);
    var joined := Join(SortedDistinct(terms), ", ");
    if joined == "" then "none" else joined
  }

  /** `standardize`: all three categories are matched against the transcript and the
      note separated by a blank line. */
  function Standardize(ontology: Ontology, transcript: string, soapNote: string): (r: StandardizationResult)
    ensures r.entities.Keys == Categories
    ensures r.normalizedSummary == "Normalized entities \U{2192} symptoms: " + SummaryField(r.entities["symptoms"])
                                   + "; medications: " + SummaryField(r.entities["medications"])
                                   + "; conditions: " + SummaryField(r.entities["conditions"]) + "."
  {
    var combined := transcript + "\n\n" + soapNote;
    var symptoms := CategoryEntities(ontology, combined, "symptoms");
    var meds := CategoryEntities(ontology, combined, "medications");
    var conds := CategoryEntities(ontology, combined, "conditions");
    StandardizationResult(
      map["symptoms" := symptoms, "medications" := meds, "conditions" := conds],
      "Normalized entities \U{2192} symptoms: " + SummaryField(symptoms)
      + "; medications: " + SummaryField(meds)
      + "; conditions: " + SummaryField(conds) + ".")
  }

  /** Every entity `standardize` reports under a category belongs to that category and
      names a canonical term of it whose first mentioned synonym, in the combined text,
      is the recorded one; and every canonical term with a mentioned synonym is reported. */
  lemma StandardizeEntities(ontology: Ontology, transcript: string, soapNote: string, c: string, e: Entity)
    requires c in Categories
    ensures var r := Standardize(ontology, transcript, soapNote);
            var textLower := Lower(transcript + "\n\n" + soapNote);
            e in r.entities[c]
            <==> c in ontology && e.category == c
                 && exists i :: 0 <= i < |ontology[c]| && ontology[c][i].canonical == e.canonical
                                && FirstSynonym(ontology[c][i].synonyms, textLower) == Some(e.matched)
  {
    var textLower := Lower(transcript + "\n\n" + soapNote);
    if c in ontology {
      MatchEntriesMembers(ontology[c], textLower, c, e);
    }
  }

  /** A category with no entities is summarised as "none". */
  lemma SummaryFieldEmpty()
    ensures SummaryField([]) == "none"
  {
  }

  /** Entities whose canonical terms are all empty also give "none": `or` replaces the
      empty join. */
  lemma SummaryFieldAllBlank(entities: seq<Entity>)
    requires forall k :: 0 <= k < |entities| ==> entities[k].canonical == ""
    ensures SummaryField(entities) == "none"
  {
    var all := seq(|entities|, k requires 0 <= k < |entities| => entities[k].canonical);
    var terms := SortedDistinct(all);
    SortedDistinctSpec(all);
    forall t | t in terms ensures t == "" {
      assert t in all;
    }
    assert |terms| >= 1 ==> terms[0] in terms;
    assert |terms| >= 2 ==> terms[1] in terms && Less(terms[0], terms[1]);
    assert |terms| <= 1;
  }

  /** Otherwise, as long as some canonical term is non-empty, the field lists the
      distinct canonical terms in strictly increasing order, each exactly once. */
  lemma SummaryFieldLists(entities: seq<Entity>)
    requires exists k :: 0 <= k < |entities| && entities[k].canonical != ""
    ensures exists terms :: SummaryField(entities) == Join(terms, ", ")
                            && StrictlySorted(terms)
                            && forall t :: t in terms <==> exists k :: 0 <= k < |entities| && entities[k].canonical == t
  {
    var all := seq(|entities|, k requires 0 <= k < |entities| => entities[k].canonical);
    var terms := SortedDistinct(all);
    SortedDistinctSpec(all);
    var k :| 0 <= k < |entities| && entities[k].canonical != "";
    assert all[k] in terms;
    var j :| 0 <= j < |terms| && terms[j] == all[k];
    JoinNonEmpty(terms, ", ", j);
    assert SummaryField(entities) == Join(terms, ", ");
    forall t ensures t in terms <==> exists k :: 0 <= k < |entities| && entities[k].canonical == t {
      if t in all {
        var k :| 0 <= k < |all| && all[k] == t;
        assert entities[k].canonical == t;
      }
      if exists k :: 0 <= k < |entities| && entities[k].canonical == t {
        var k :| 0 <= k < |entities| && entities[k].canonical == t;
        assert all[k] == t;
      }
    }
  }
}
