/**
 * The taxonomy records of the three categories, the record filter of the
 * lister, and the tier line each record is printed with.
 */
module Taxonomy {
  import opened Wrappers
  import opened Text

  /** The three taxonomies the lister can process. */
  datatype Category = Product | Content | Audience

  /** Number of tier columns a record of the category carries. */
  function TierCount(c: Category): nat
  {
    match c
    case Product => 3
    case Content => 4
    case Audience => 6
  }

  /**
   * One parsed row of a taxonomy. The three Rust structs share this shape:
   * id, optional parent id, name, the tier columns in order, and an optional
   * extension (a product row has none).
   */
  datatype Record = Record(
    category: Category,
    uniqueId: string,
    parent: Option<string>,
    name: string,
    tiers: seq<Option<string>>,
    ext: Option<string>)
  {
    /** The row has exactly its category's tier columns, and a product row no extension. */
    predicate WellFormed() {
      |tiers| == TierCount(category) && (category == Product ==> ext == None)
    }
  }

  /** The three filter modes of the command line. */
  datatype Filter = ById(id: string) | ByParent(parentId: string) | ByName(name: string)

  /** Whether a record is listed under the filter (`matches_filter`). */
  predicate MatchesFilter(r: Record, f: Filter)
    ensures f == ById(r.uniqueId) ==> MatchesFilter(r, f)
    ensures f == ByParent(r.uniqueId) ==> MatchesFilter(r, f)
    ensures f == ByName(r.name) ==> MatchesFilter(r, f)
  {
    match f
    case ById(id) => r.uniqueId == id
    case ByParent(p) => r.parent == Some(p) || r.uniqueId == p
    case ByName(n) => Contains(LowerStr(r.name), LowerStr(n))
  }

  /** The id filter is exact equality, letter case included. */
  lemma IdFilterExact(r: Record, id: string)
    ensures MatchesFilter(r, ById(id)) <==> r.uniqueId == id
  {
  }

  /** Case matters to the id filter: "iab1" does not select a record with id "IAB1". */
  lemma IdFilterCaseSensitive(r: Record)
    requires r.uniqueId == "IAB1"
    ensures !MatchesFilter(r, ById("iab1"))
    ensures MatchesFilter(r, ById("IAB1"))
  {
  }

  /** The parent filter selects the children of `p` and the record `p` itself. */
  lemma ParentFilterIff(r: Record, p: string)
    ensures MatchesFilter(r, ByParent(p)) <==> r.parent == Some(p) || r.uniqueId == p
    ensures r.uniqueId == p ==> MatchesFilter(r, ByParent(p))
  {
  }

  /** A record without a parent passes the parent filter only as the named record itself. */
  lemma ParentFilterRoot(r: Record, p: string)
    requires r.parent == None
    ensures MatchesFilter(r, ByParent(p)) <==> r.uniqueId == p
  {
  }

  /** The name filter: the lower-cased query occurs somewhere in the lower-cased name. */
  lemma NameFilterIff(r: Record, q: string)
    ensures MatchesFilter(r, ByName(q)) <==> exists i :: OccursAt(LowerStr(r.name), LowerStr(q), i)
  {
    assert MatchesFilter(r, ByName(q)) == Contains(LowerStr(r.name), LowerStr(q));
    ContainsIff(LowerStr(r.name), LowerStr(q));
  }

  /** The name filter ignores the letter case of both the query and the name. */
  lemma NameFilterCaseInsensitive(r: Record, r': Record, q: string, q': string)
    requires CaseVariants(q, q')
    requires CaseVariants(r.name, r'.name)
    ensures MatchesFilter(r, ByName(q)) == MatchesFilter(r', ByName(q'))
  {
    CaseVariantsIff(q, q');
    CaseVariantsIff(r.name, r'.name);
  }

  /** An empty name query selects every record. */
  lemma NameFilterEmpty(r: Record)
    ensures MatchesFilter(r, ByName(""))
  {
  }

  /** A tier column that is printed: present and not empty. */
  predicate Shown(t: Option<string>) {
    t.Some? && t.value != []
  }

  /**
   * The tiers that are printed, in column order
   * (`filter_map(|&t| t.filter(|s| !s.is_empty()))`).
   */
  function CompactTiers(ts: seq<Option<string>>): (r: seq<string>)
    ensures |r| <= |ts|
    ensures forall k :: 0 <= k < |r| ==> r[k] != []
  {
    if ts == [] then []
    else if Shown(ts[0]) then [ts[0].value] + CompactTiers(ts[1..])
    else CompactTiers(ts[1..])
  }

  /** A string is printed as a tier exactly when some column holds it and it is not empty. */
  lemma {:induction false} CompactTiersMembers(ts: seq<Option<string>>, s: string)
    ensures s in CompactTiers(ts) <==> exists i :: 0 <= i < |ts| && ts[i] == Some(s) && s != []
  {
    if ts != [] {
      CompactTiersMembers(ts[1..], s);
      if exists i :: 0 < i < |ts| && ts[i] == Some(s) && s != [] {
        var i :| 0 < i < |ts| && ts[i] == Some(s) && s != [];
        assert ts[1..][i - 1] == ts[i];
      }
    }
  }

  /** Compaction keeps order: it distributes over concatenation of column lists. */
  lemma {:induction false} CompactTiersAppend(a: seq<Option<string>>, b: seq<Option<string>>)
    ensures CompactTiers(a + b) == CompactTiers(a) + CompactTiers(b)
  {
    if a == [] {
      assert a + b == b;
    } else {
      assert (a + b)[0] == a[0];
      assert (a + b)[1..] == a[1..] + b;
      CompactTiersAppend(a[1..], b);
    }
  }

  /** Compaction of a single column: its value when shown, nothing otherwise. */
  lemma CompactTiersSingle(t: Option<string>)
    ensures CompactTiers([t]) == if Shown(t) then [t.value] else []
  {
  }

  /** A well-formed record never prints more tiers than its category has columns. */
  lemma CompactTiersBound(r: Record)
    requires r.WellFormed()
    ensures |CompactTiers(r.tiers)| <= TierCount(r.category)
  {
  }

  /** The separator between printed tiers. */
  const TierSeparator: string := " | "

  /** The text after "Tiers:" in a record's block (`tiers.join(" | ")`). */
  function TiersLine(r: Record): (line: string)
    ensures CompactTiers(r.tiers) == [] ==> line == []
    ensures CompactTiers(r.tiers) != [] ==> IsPrefix(CompactTiers(r.tiers)[0], line)
  {
    Join(CompactTiers(r.tiers), TierSeparator)
  }

  /** The tier line is empty exactly when no tier is shown. */
  lemma TiersLineEmptyIff(r: Record)
    ensures TiersLine(r) == [] <==> forall i :: 0 <= i < |r.tiers| ==> !Shown(r.tiers[i])
  {
    var ts := CompactTiers(r.tiers);
    JoinEmptyIff(ts, TierSeparator);
    if ts != [] {
      CompactTiersMembers(r.tiers, ts[0]);
    } else if exists i :: 0 <= i < |r.tiers| && Shown(r.tiers[i]) {
      var i :| 0 <= i < |r.tiers| && Shown(r.tiers[i]);
      CompactTiersMembers(r.tiers, r.tiers[i].value);
    }
  }

  /**
   * Otherwise the tier line is the shown tiers, each at its offset, with
   * exactly " | " after every one but the last, and no segment empty.
   */
  lemma TiersLineSegments(r: Record, k: nat)
    requires k < |CompactTiers(r.tiers)|
    ensures var ts := CompactTiers(r.tiers);
      var o := Offset(ts, TierSeparator, k);
      ts[k] != []
      && o + |ts[k]| <= |TiersLine(r)|
      && TiersLine(r)[o..o + |ts[k]|] == ts[k]
      && (k + 1 < |ts| ==>
            o + |ts[k]| + 3 <= |TiersLine(r)|
            && TiersLine(r)[o + |ts[k]|..o + |ts[k]| + 3] == " | ")
  {
    JoinSegment(CompactTiers(r.tiers), TierSeparator, k);
  }

  /** A worked example: an empty and a missing column are skipped. */
  lemma TiersLineExample()
    ensures TiersLine(Record(Content, "1", None, "Audio", [Some("A"), Some(""), None, Some("B")], None))
      == "A | B"
  {
    var ts := [Some("A"), Some(""), None, Some("B")];
    assert ts[1..] == [Some(""), None, Some("B")];
    assert ts[1..][1..] == [None, Some("B")];
    assert ts[1..][1..][1..] == [Some("B")];
  }

  /** One labelled line of a printed record block (styling left out). */
  datatype Field = Field(heading: string, value: string)

  /**
   * The fields a record is printed with, in order. Absent parent and extension
   * print as the empty string; a product block has no extension line.
   */
  function Block(r: Record): (b: seq<Field>)
    ensures |b| == if r.category == Product then 4 else 5
    ensures b[0] == Field("Unique ID", r.uniqueId)
    ensures b[1] == Field("Parent ID", r.parent.GetOr(""))
    ensures b[2] == Field("Name", r.name)
    ensures b[3] == Field("Tiers", TiersLine(r))
    ensures r.category != Product ==> b[4] == Field("Extension", r.ext.GetOr(""))
  {
    [Field("Unique ID", r.uniqueId),
     Field("Parent ID", r.parent.GetOr("")),
     Field("Name", r.name),
     Field("Tiers", TiersLine(r))]
    + (if r.category == Product then [] else [Field("Extension", r.ext.GetOr(""))])
  }

  /** The records the pipeline keeps, in input order (the stream's `.filter`). */
  function Listing(rs: seq<Record>, f: Filter): (out: seq<Record>)
    ensures |out| <= |rs|
    ensures forall k :: 0 <= k < |out| ==> MatchesFilter(out[k], f)
  {
    if rs == [] then []
    else if MatchesFilter(rs[0], f) then [rs[0]] + Listing(rs[1..], f)
    else Listing(rs[1..], f)
  }

  /** A record is listed exactly when it is among the input and passes the filter. */
  lemma {:induction false} ListingMembers(rs: seq<Record>, f: Filter, r: Record)
    ensures r in Listing(rs, f) <==> r in rs && MatchesFilter(r, f)
  {
    if rs != [] {
      ListingMembers(rs[1..], f, r);
      assert rs == [rs[0]] + rs[1..];
    }
  }

  /** Listing keeps input order: it distributes over concatenation of inputs. */
  lemma {:induction false} ListingAppend(a: seq<Record>, b: seq<Record>, f: Filter)
    ensures Listing(a + b, f) == Listing(a, f) + Listing(b, f)
  {
    if a == [] {
      assert a + b == b;
    } else {
      assert (a + b)[0] == a[0];
      assert (a + b)[1..] == a[1..] + b;
      ListingAppend(a[1..], b, f);
    }
  }

  /**
   * Listing by parent `p` keeps exactly the children of `p` and the record
   * `p` itself, each as often and in the order the input holds them.
   */
  lemma ListingByParent(rs: seq<Record>, p: string, r: Record)
    ensures r in Listing(rs, ByParent(p)) <==> r in rs && (r.parent == Some(p) || r.uniqueId == p)
  {
  }
}
