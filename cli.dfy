/**
 * The lister's `main` after flag parsing: pick exactly one taxonomy, pick the
 * filter (id before parent before name), skip the header lines of the chosen
 * dataset, and list the records that pass the filter.
 */
module Cli {
  import opened Wrappers
  import opened Taxonomy
  import opened Text

  /** The parsed command-line flags. */
  datatype Flags = Flags(
    product: bool,
    content: bool,
    audience: bool,
    id: Option<string>,
    parent: Option<string>,
    name: Option<string>)

  /** The usage errors `main` reports before exiting with status 1. */
  datatype UsageError = NoPipeline | MultiplePipelines | NoFilter

  /** The message printed to standard error for each usage error. */
  function Message(e: UsageError): string
  {
    match e
    case NoPipeline => "Error: Must specify one of --product, --content, or --audience"
    case MultiplePipelines => "Error: Can only specify one pipeline at a time"
    case NoFilter => "Error: Must specify one of --id, --parent, or --name"
  }

  /** Each usage error has its own message. */
  lemma MessagesDistinct(e: UsageError, e': UsageError)
    ensures Message(e) == Message(e') <==> e == e'
  {
  }

  /** What a successful run processes: the taxonomy, the filter, and the header lines to skip. */
  datatype Selection = Selection(category: Category, filter: Filter, skip: nat)

  /** Number of set flags (`iter().filter(|&&x| x).count()`). */
  function CountTrue(bs: seq<bool>): (n: nat)
    ensures n <= |bs|
    ensures n == 0 <==> forall i :: 0 <= i < |bs| ==> !bs[i]
  {
    if bs == [] then 0 else (if bs[0] then 1 else 0) + CountTrue(bs[1..])
  }

  /** The count of three flags is the number of them that are set. */
  lemma CountTrueThree(a: bool, b: bool, c: bool)
    ensures CountTrue([a, b, c]) == (if a then 1 else 0) + (if b then 1 else 0) + (if c then 1 else 0)
  {
    assert [a, b, c][1..] == [b, c];
    assert [b, c][1..] == [c];
    assert [c][1..] == [];
    assert CountTrue([c]) == (if c then 1 else 0) + CountTrue([]);
    assert CountTrue([b, c]) == (if b then 1 else 0) + CountTrue([c]);
  }

  /** Leading lines of a category's dataset that precede the data rows. */
  function HeaderLines(c: Category): (n: nat)
    ensures 1 <= n <= 2
    ensures n == 2 <==> c == Content
  {
    if c == Content then 2 else 1
  }

  /** Exactly one of three flags is set. */
  predicate ExactlyOne(a: bool, b: bool, c: bool) {
    (a && !b && !c) || (!a && b && !c) || (!a && !b && c)
  }

  /** The argument checks and choices of `main`, in the order it makes them. */
  function Select(f: Flags): (r: Result<Selection, UsageError>)
    ensures r == Failure(NoPipeline) <==> !f.product && !f.content && !f.audience
    ensures r == Failure(MultiplePipelines)
        <==> (f.product && f.content) || (f.product && f.audience) || (f.content && f.audience)
    ensures r == Failure(NoFilter)
        <==> ExactlyOne(f.product, f.content, f.audience) && f.id == None && f.parent == None && f.name == None
    ensures r.Success? ==>
      && (r.value.category == Product <==> f.product)
      && (r.value.category == Content <==> f.content)
      && (r.value.category == Audience <==> f.audience)
      && (f.id.Some? ==> r.value.filter == ById(f.id.value))
      && (f.id.None? && f.parent.Some? ==> r.value.filter == ByParent(f.parent.value))
      && (f.id.None? && f.parent.None? ==> f.name.Some? && r.value.filter == ByName(f.name.value))
      && (r.value.skip == 2 <==> r.value.category == Content)
      && (r.value.skip == 1 <==> r.value.category != Content)
  {
    CountTrueThree(f.product, f.content, f.audience);
    var count := CountTrue([f.product, f.content, f.audience]);
    if count == 0 then Failure(NoPipeline)
    else if count > 1 then Failure(MultiplePipelines)
    else
      var filter :=
        if f.id.Some? then Some(ById(f.id.value))
        else if f.parent.Some? then Some(ByParent(f.parent.value))
        else if f.name.Some? then Some(ByName(f.name.value))
        else None;
      if filter.None? then Failure(NoFilter)
      else
        var category := if f.product then Product else if f.content then Content else Audience;
        Success(Selection(category, filter.value, HeaderLines(category)))
  }

  /** A successful selection exists exactly when one taxonomy and some filter are given. */
  lemma SelectSucceedsIff(f: Flags)
    ensures Select(f).Success?
        <==> ExactlyOne(f.product, f.content, f.audience) && (f.id.Some? || f.parent.Some? || f.name.Some?)
  {
  }

  /** The lines that remain after skipping `n` leading ones (`Stream::skip`). */
  function SkipLines(lines: seq<string>, n: nat): (rest: seq<string>)
    ensures |rest| == if n <= |lines| then |lines| - n else 0
    ensures forall k :: 0 <= k < |rest| ==> rest[k] == lines[k + n]
  {
    if n <= |lines| then lines[n..] else []
  }

  /**
   * A whole run. `dataset` stands for the embedded text of each taxonomy and
   * `parse` for the TSV deserialiser; on success the result is the records
   * printed, one block each, in order.
   */
  function Run(
    f: Flags,
    dataset: Category -> seq<string>,
    parse: (Category, seq<string>) -> seq<Record>): (out: Result<seq<Record>, UsageError>)
    ensures out.Failure? <==> Select(f).Failure?
    ensures out.Failure? ==> out.error == Select(f).error
    ensures out.Success? ==>
      var s := Select(f).value;
      var rows := parse(s.category, SkipLines(dataset(s.category), s.skip));
      && (forall r :: r in out.value <==> r in rows && MatchesFilter(r, s.filter))
      && out.value == Listing(rows, s.filter)
  {
    match Select(f)
    case Failure(e) => Failure(e)
    case Success(s) =>
      var rows := parse(s.category, SkipLines(dataset(s.category), s.skip));
      forall r | r in rows ensures r in Listing(rows, s.filter) <==> MatchesFilter(r, s.filter) {
        ListingMembers(rows, s.filter, r);
      }
      forall r | r in Listing(rows, s.filter) ensures r in rows {
        ListingMembers(rows, s.filter, r);
      }
      Success(Listing(rows, s.filter))
  }

  /** How a run ends: its exit status, what it writes to standard error, and the records it prints. */
  datatype Exit = Exit(status: nat, stderr: string, printed: seq<Record>)

  /**
   * The end of a run that does not panic: a usage error prints its message
   * and exits with status 1 before any record; otherwise the kept records
   * are printed and the status is 0.
   */
  function Terminate(out: Result<seq<Record>, UsageError>): (e: Exit)
    ensures e.status == 0 <==> out.Success?
    ensures out.Failure? ==> e.status == 1 && e.printed == [] && e.stderr == Message(out.error)
    ensures out.Success? ==> e.printed == out.value && e.stderr == []
  {
    match out
    case Failure(err) => Exit(1, Message(err), [])
    case Success(rows) => Exit(0, [], rows)
  }

  /** A run with no taxonomy flag exits with status 1 and prints no record. */
  lemma NoCategoryExample(dataset: Category -> seq<string>, parse: (Category, seq<string>) -> seq<Record>)
    ensures var out := Run(Flags(false, false, false, Some("1"), None, None), dataset, parse);
      out == Failure(NoPipeline)
      && Terminate(out) == Exit(1, "Error: Must specify one of --product, --content, or --audience", [])
  {
  }
}
