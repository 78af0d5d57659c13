/**
 * The posted-date filter of fetch_jobs in streamlit_app.py.
 *
 * The job records are put into a table whose rows carry index labels
 * 0..n-1; a boolean mask keeps the rows posted on or after the cutoff
 * (keeping their labels and their order); the index is then reset so the
 * kept rows are labelled 0..m-1 again.
 */
module Jobs {
  import opened Dates

  /** One job listing, with the fields of the mocked records. */
  datatype JobRecord = JobRecord(
    jobName: string,
    companyName: string,
    datePosted: Date,
    jobLink: string,
    jobDescription: string)

  /** A table row: the record and its index label. */
  datatype Row = Row(index: nat, job: JobRecord)

  /** A job table, row by row in table order. */
  type Frame = seq<Row>

  /** The records of a table, in row order (the index dropped). */
  function Records(f: Frame): (rs: seq<JobRecord>)
    ensures |rs| == |f|
    ensures forall k :: 0 <= k < |f| ==> rs[k] == f[k].job
  {
    seq(|f|, k requires 0 <= k < |f| => f[k].job)
  }

  /** The index labels of a table, in row order. */
  function Labels(f: Frame): (ls: seq<nat>)
    ensures |ls| == |f|
    ensures forall k :: 0 <= k < |f| ==> ls[k] == f[k].index
  {
    seq(|f|, k requires 0 <= k < |f| => f[k].index)
  }

  /** The default index: row k is labelled k. */
  predicate DefaultIndex(f: Frame) {
    forall k :: 0 <= k < |f| ==> f[k].index == k
  }

  /** Labels strictly increase down the table. */
  predicate LabelsIncreasing(f: Frame) {
    forall k, l :: 0 <= k < l < |f| ==> f[k].index < f[l].index
  }

  /** With increasing labels, the first row has the smallest label. */
  lemma FirstLabelSmallest(f: Frame)
    requires f != [] && LabelsIncreasing(f)
    ensures forall row :: row in f[1..] ==> f[0].index < row.index
  {
  }

  /** A table without rows is empty. */
  lemma NoRowsIsEmpty(f: Frame)
    ensures (forall row :: row !in f) ==> f == []
  {
    if f != [] {
      assert f[0] in f;
    }
  }

  /** The row is kept by the mask `date_posted >= cutoff`. */
  predicate Kept(row: Row, cutoff: Date) {
    OnOrAfter(row.job.datePosted, cutoff)
  }

  /**
   * Building the table from a list of records: the rows are exactly the
   * records under the default index.
   */
  function ToFrame(records: seq<JobRecord>): (f: Frame)
    ensures DefaultIndex(f) && Records(f) == records
    ensures forall row :: row in f <==> row.index < |records| && row.job == records[row.index]
  {
    seq(|records|, k requires 0 <= k < |records| => Row(k, records[k]))
  }

  /** `reset_index(drop=True)`: the same records, relabelled 0..n-1. */
  function ResetIndex(f: Frame): (r: Frame)
    ensures DefaultIndex(r) && Records(r) == Records(f)
  {
    ToFrame(Records(f))
  }

  /**
   * `f[f['date_posted'] >= cutoff]`: the rows dated on or after the cutoff
   * and no others, with their labels, in table order.
   */
  function MaskByDate(f: Frame, cutoff: Date): (r: Frame)
    ensures |r| <= |f|
    ensures forall row :: row in r <==> row in f && Kept(row, cutoff)
    ensures LabelsIncreasing(f) ==> LabelsIncreasing(r)
  {
    if f == [] then []
    else
      var rest := MaskByDate(f[1..], cutoff);
      if Kept(f[0], cutoff) then
        if LabelsIncreasing(f) then
          FirstLabelSmallest(f);
          [f[0]] + rest
        else
          [f[0]] + rest
      else rest
  }

  /**
   * A table with increasing labels is determined by the set of its rows. So
   * MaskByDate's contract fixes its result: on such a table the mask
   * returns exactly the kept rows in table order.
   */
  lemma {:induction false} IncreasingFrameDeterminedByRows(a: Frame, b: Frame)
    requires LabelsIncreasing(a) && LabelsIncreasing(b)
    requires forall row :: row in a <==> row in b
    ensures a == b
    decreases |a|
  {
    if a == [] {
      NoRowsIsEmpty(b);
    } else {
      assert a[0] in b;
      assert b != [];
      assert b[0] in a;
      FirstLabelSmallest(a);
      FirstLabelSmallest(b);
      if a[0] != b[0] {
        assert false;
      }
      forall row
        ensures row in a[1..] <==> row in b[1..]
      {
        if row in a[1..] {
          assert row in a && row != a[0];
        }
        if row in b[1..] {
          assert row in b && row != b[0];
        }
      }
      IncreasingFrameDeterminedByRows(a[1..], b[1..]);
      assert a == [a[0]] + a[1..];
      assert b == [b[0]] + b[1..];
    }
  }

  /**
   * On a table with increasing labels, any table with increasing labels
   * that holds exactly the rows dated on or after the cutoff is the mask's
   * result.
   */
  lemma MaskByDateIsOrderedSelection(f: Frame, cutoff: Date, r: Frame)
    requires LabelsIncreasing(f) && LabelsIncreasing(r)
    requires forall row :: row in r <==> row in f && Kept(row, cutoff)
    ensures r == MaskByDate(f, cutoff)
  {
    IncreasingFrameDeterminedByRows(r, MaskByDate(f, cutoff));
  }

  /**
   * The date-filter step of fetch_jobs: mask on `date_posted >= cutoff`,
   * then reset the index.
   */
  function FilterJobsByDate(records: seq<JobRecord>, cutoff: Date): (r: Frame)
    ensures DefaultIndex(r)
    ensures |r| <= |records|
    ensures forall k :: 0 <= k < |r| ==> r[k].job in records && OnOrAfter(r[k].job.datePosted, cutoff)
  {
    var masked := MaskByDate(ToFrame(records), cutoff);
    assert forall k :: 0 <= k < |masked| ==> masked[k] in masked;
    ResetIndex(masked)
  }

  /** The labels of the rows the mask kept, before the index is reset. */
  function SurvivingLabels(records: seq<JobRecord>, cutoff: Date): seq<nat> {
    Labels(MaskByDate(ToFrame(records), cutoff))
  }

  /**
   * `kept` is `records` restricted to the positions in `positions`: these
   * strictly increase and are exactly the positions whose record is dated
   * on or after the cutoff.
   */
  ghost predicate KeptInOrder(kept: seq<JobRecord>, records: seq<JobRecord>, cutoff: Date, positions: seq<nat>) {
    && |positions| == |kept|
    && (forall k :: 0 <= k < |kept| ==> positions[k] < |records| && kept[k] == records[positions[k]])
    && (forall k, l :: 0 <= k < l < |positions| ==> positions[k] < positions[l])
    && (forall i :: 0 <= i < |records| ==> (i in positions <==> OnOrAfter(records[i].datePosted, cutoff)))
  }

  /**
   * The filter returns exactly the input records dated on or after the
   * cutoff, unchanged and in their input order; the labels the mask keeps
   * are their original positions.
   */
  lemma FilterJobsByDateSelects(records: seq<JobRecord>, cutoff: Date)
    ensures KeptInOrder(Records(FilterJobsByDate(records, cutoff)), records, cutoff, SurvivingLabels(records, cutoff))
  {
  }

  /** A record belongs to the result exactly when it is an input record dated on or after the cutoff. */
  lemma FilterJobsByDateMembers(records: seq<JobRecord>, cutoff: Date, x: JobRecord)
    ensures x in Records(FilterJobsByDate(records, cutoff)) <==> x in records && OnOrAfter(x.datePosted, cutoff)
  {
  }

  /** A record dated exactly on the cutoff is kept; one dated earlier is dropped. */
  lemma CutoffIsInclusive(records: seq<JobRecord>, x: JobRecord, cutoff: Date)
    requires x in records
    ensures x.datePosted == cutoff ==> x in Records(FilterJobsByDate(records, cutoff))
    ensures Before(x.datePosted, cutoff) ==> x !in Records(FilterJobsByDate(records, cutoff))
  {
  }

  /** The two mocked listings fetch_jobs starts from. */
  function MockJobs(): seq<JobRecord> {
    [ JobRecord("Product Manager", "TechCorp", Date(2024, 8, 20),
                "https://www.techcorp.com/jobs/123",
                "We are looking for an experienced Product Manager with skills in agile methodologies, user research, and data analysis."),
      JobRecord("Senior Product Manager", "InnovateX", Date(2024, 8, 18),
                "https://www.innovatex.com/careers/456",
                "Join InnovateX as a Senior Product Manager. Required skills include strategic planning, stakeholder management, and market analysis.") ]
  }

  /** fetch_jobs: the mocked listings through the date filter; the title and the site are not used. */
  function FetchJobs(jobTitle: string, jobSite: string, cutoff: Date): Frame {
    FilterJobsByDate(MockJobs(), cutoff)
  }

  /** Cutoff 2024-08-19 keeps only the TechCorp listing. */
  lemma FetchJobsAugust19(jobTitle: string, jobSite: string)
    ensures Records(FetchJobs(jobTitle, jobSite, Date(2024, 8, 19))) == [MockJobs()[0]]
  {
  }

  /** Cutoff 2024-08-18 keeps both listings, TechCorp first. */
  lemma FetchJobsAugust18(jobTitle: string, jobSite: string)
    ensures Records(FetchJobs(jobTitle, jobSite, Date(2024, 8, 18))) == MockJobs()
  {
    var f := ToFrame(MockJobs());
    assert f == [Row(0, MockJobs()[0]), Row(1, MockJobs()[1])];
    assert MaskByDate(f[1..], Date(2024, 8, 18)) == f[1..];
    assert MaskByDate(f, Date(2024, 8, 18)) == f;
  }

  /** Cutoff 2024-08-21 keeps nothing: the empty table behind the "no jobs found" warning. */
  lemma FetchJobsAugust21(jobTitle: string, jobSite: string)
    ensures FetchJobs(jobTitle, jobSite, Date(2024, 8, 21)) == []
  {
  }
}
