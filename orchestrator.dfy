/**
 * The invoice pipeline (`modify_and_save_invoice` and `main`): where each
 * invoice is opened and written, and the per-invoice failure boundary of the
 * loop over the enumerated IDs.
 */
module Orchestrator {
  import opened Wrappers
  import opened Enumeration

  /** The invoice listing of the configured tenant. */
  const InvoicesUrl: string := "https://farminos-staging.fly.dev/Itto%20Group/itto-almonds/invoices"

  /** The directory the PDF files are written to. */
  const OutputDir: string := "all_modified_invoices"

  const FilePrefix: string := "invoice_"
  const FileSuffix: string := ".pdf"

  /** The print view of one invoice. */
  function PrintUrl(id: string): (u: string)
    ensures |u| == |InvoicesUrl| + |id| + 7
    ensures u[..|InvoicesUrl| + 1] == InvoicesUrl + "/" && u[|u| - 6..] == "/print"
    ensures u[|InvoicesUrl| + 1..|u| - 6] == id
  {
    InvoicesUrl + "/" + id + "/print"
  }

  /** The name of the PDF file written for one invoice. */
  function InvoiceFileName(id: string): string {
    FilePrefix + id + FileSuffix
  }

  /** The path of that file: `Path(OutputDir) / InvoiceFileName(id)`. */
  function OutputPath(id: string): string {
    OutputDir + "/" + InvoiceFileName(id)
  }

  /** Reads the invoice ID back from a path in the output directory. */
  function IdOfOutputPath(p: string): (r: Option<string>)
    ensures r.Some? ==> |p| == |OutputDir| + 1 + |FilePrefix| + |r.value| + |FileSuffix|
  {
    var head := OutputDir + "/" + FilePrefix;
    if |head| + |FileSuffix| <= |p| && p[..|head|] == head && p[|p| - |FileSuffix|..] == FileSuffix
    then Some(p[|head|..|p| - |FileSuffix|])
    else None
  }

  /** Every output path names its invoice: the ID can be read back from it. */
  lemma OutputPathRoundTrip(id: string)
    ensures IdOfOutputPath(OutputPath(id)) == Some(id)
  {
    var head := OutputDir + "/" + FilePrefix;
    var p := OutputPath(id);
    assert p == head + id + FileSuffix;
    assert p[..|head|] == head;
    assert p[|p| - |FileSuffix|..] == FileSuffix;
    assert p[|head|..|p| - |FileSuffix|] == id;
  }

  /** Distinct invoices never share an output file. */
  lemma OutputPathInjective(a: string, b: string)
    ensures OutputPath(a) == OutputPath(b) <==> a == b
  {
    OutputPathRoundTrip(a);
    OutputPathRoundTrip(b);
  }

  /** What attempting one invoice came to: the edits and the PDF export either
      completed or raised. */
  datatype Outcome = Ok | Err(message: string)

  /** The paths written by the loop, in loop order: one per invoice whose attempt succeeded. */
  function Written(ids: seq<string>, outcome: string -> Outcome): seq<string> {
    if ids == [] then []
    else
      var last := ids[|ids| - 1];
      Written(ids[..|ids| - 1], outcome) + (if outcome(last).Ok? then [OutputPath(last)] else [])
  }

  /** The invoices whose attempt failed, in loop order (each one logged). */
  function Failed(ids: seq<string>, outcome: string -> Outcome): seq<string> {
    if ids == [] then []
    else
      var last := ids[|ids| - 1];
      Failed(ids[..|ids| - 1], outcome) + (if outcome(last).Err? then [last] else [])
  }

  /** Every invoice is either written or reported failed, never both, never neither. */
  lemma {:induction false} WrittenAndFailedPartition(ids: seq<string>, outcome: string -> Outcome)
    ensures |Written(ids, outcome)| + |Failed(ids, outcome)| == |ids|
  {
    if ids != [] {
      WrittenAndFailedPartition(ids[..|ids| - 1], outcome);
    }
  }

  /** A path is written exactly when it is the path of a listed invoice whose attempt succeeded. */
  lemma {:induction false} WrittenMembers(ids: seq<string>, outcome: string -> Outcome, p: string)
    ensures p in Written(ids, outcome) <==> exists k :: 0 <= k < |ids| && outcome(ids[k]).Ok? && p == OutputPath(ids[k])
  {
    if ids != [] {
      var init := ids[..|ids| - 1];
      WrittenMembers(init, outcome, p);
      assert forall k :: 0 <= k < |init| ==> init[k] == ids[k];
    }
  }

  /** The files produced are a subset of the listed invoices' files, missing
      exactly those whose attempt failed. */
  lemma WrittenExactly(ids: seq<string>, outcome: string -> Outcome, id: string)
    ensures OutputPath(id) in Written(ids, outcome) <==> id in ids && outcome(id).Ok?
  {
    WrittenMembers(ids, outcome, OutputPath(id));
    if OutputPath(id) in Written(ids, outcome) {
      var k :| 0 <= k < |ids| && outcome(ids[k]).Ok? && OutputPath(id) == OutputPath(ids[k]);
      OutputPathInjective(id, ids[k]);
    }
    if id in ids && outcome(id).Ok? {
      var k :| 0 <= k < |ids| && ids[k] == id;
      assert outcome(ids[k]).Ok? && OutputPath(id) == OutputPath(ids[k]);
    }
  }

  /** Only paths of listed invoices are ever written. */
  lemma WrittenSubset(ids: seq<string>, outcome: string -> Outcome, p: string)
    requires p in Written(ids, outcome)
    ensures IdOfOutputPath(p).Some? && IdOfOutputPath(p).value in ids
  {
    WrittenMembers(ids, outcome, p);
    var k :| 0 <= k < |ids| && outcome(ids[k]).Ok? && p == OutputPath(ids[k]);
    OutputPathRoundTrip(ids[k]);
  }

  /** The per-invoice loop of `main`: an empty list ends the run before the loop;
      otherwise every ID is attempted in list order, and a failed attempt is
      logged and skipped without stopping the loop. */
  method ProcessInvoices(ids: seq<string>, outcome: string -> Outcome)
    returns (written: seq<string>, failed: seq<string>, attempted: nat)
    ensures ids == [] ==> attempted == 0 && written == [] && failed == []
    ensures attempted == |ids| && |written| + |failed| == attempted
    ensures written == Written(ids, outcome) && failed == Failed(ids, outcome)
    ensures forall id :: OutputPath(id) in written <==> id in ids && outcome(id).Ok?
  {
    written, failed, attempted := [], [], 0;
    if ids == [] {
      return;
    }
    for i := 0 to |ids|
      invariant attempted == i
      invariant written == Written(ids[..i], outcome) && failed == Failed(ids[..i], outcome)
    {
      assert ids[..i + 1][..i] == ids[..i];
      match outcome(ids[i]) {
        case Ok => written := written + [OutputPath(ids[i])];
        case Err(_) => failed := failed + [ids[i]];
      }
      attempted := attempted + 1;
    }
    assert ids[..|ids|] == ids;
    WrittenAndFailedPartition(ids, outcome);
    forall id ensures OutputPath(id) in written <==> id in ids && outcome(id).Ok? {
      WrittenExactly(ids, outcome, id);
    }
  }

  /** The run after login: enumerate the listing, then process every ID found.
      The files produced are exactly those of the IDs that the visited listing
      views link to and whose attempt succeeded. */
  method Run(pages: seq<Page>, outcome: string -> Outcome)
    returns (written: seq<string>, failed: seq<string>)
    requires HasLastPage(pages)
    ensures forall id :: OutputPath(id) in written <==>
      id in CollectIds(pages[..StopIndex(pages) + 1]) && outcome(id).Ok?
    ensures forall id :: id in failed <==>
      id in CollectIds(pages[..StopIndex(pages) + 1]) && outcome(id).Err?
  {
    var ids, visited := GetInvoiceIds(pages);
    var attempted;
    written, failed, attempted := ProcessInvoices(ids, outcome);
    forall id ensures id in failed <==> id in ids && outcome(id).Err? {
      FailedExactly(ids, outcome, id);
    }
  }

  /** An invoice is reported failed exactly when it is listed and its attempt failed. */
  lemma {:induction false} FailedExactly(ids: seq<string>, outcome: string -> Outcome, id: string)
    ensures id in Failed(ids, outcome) <==> id in ids && outcome(id).Err?
  {
    if ids != [] {
      var init := ids[..|ids| - 1];
      FailedExactly(init, outcome, id);
      assert ids == init + [ids[|ids| - 1]];
    }
  }

  /** Failures are reported once each when the IDs are distinct. */
  lemma {:induction false} FailedNoDuplicates(ids: seq<string>, outcome: string -> Outcome)
    requires NoDuplicates(ids)
    ensures NoDuplicates(Failed(ids, outcome))
  {
    if ids != [] {
      var init := ids[..|ids| - 1];
      var last := ids[|ids| - 1];
      FailedNoDuplicates(init, outcome);
      FailedExactly(init, outcome, last);
      assert last !in init;
    }
  }

  lemma FirstTwoDiffer(f: seq<string>)
    requires NoDuplicates(f) && |f| >= 2
    ensures f[0] != f[1]
  {
  }

  /** A sequence without repeats whose every element is `x` holds `x` at most once. */
  lemma AtMostOnce(f: seq<string>, x: string)
    requires NoDuplicates(f)
    requires forall i :: 0 <= i < |f| ==> f[i] == x
    ensures |f| <= 1
  {
    if |f| >= 2 {
      FirstTwoDiffer(f);
      assert false;
    }
  }

  /** One failing invoice among distinct listed ones costs exactly its own file:
      the loop goes on, and every other listed invoice is written. */
  lemma OneFailureSkipped(ids: seq<string>, outcome: string -> Outcome, bad: string)
    requires NoDuplicates(ids) && bad in ids
    requires forall id :: outcome(id).Err? <==> id == bad
    ensures |Written(ids, outcome)| == |ids| - 1
    ensures OutputPath(bad) !in Written(ids, outcome)
    ensures forall id :: id in ids && id != bad ==> OutputPath(id) in Written(ids, outcome)
  {
    var f := Failed(ids, outcome);
    WrittenAndFailedPartition(ids, outcome);
    FailedNoDuplicates(ids, outcome);
    FailedExactly(ids, outcome, bad);
    forall i | 0 <= i < |f| ensures f[i] == bad {
      FailedExactly(ids, outcome, f[i]);
    }
    AtMostOnce(f, bad);
    WrittenExactly(ids, outcome, bad);
    forall id | id in ids && id != bad ensures OutputPath(id) in Written(ids, outcome) {
      WrittenExactly(ids, outcome, id);
    }
  }
}
