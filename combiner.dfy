/** The combiner of functions/combiner.py: reduce the workers' partial tables to one
    maximum observed sensitivity `chi = max(n * ls)` per statistic, left-join it onto
    the true (noise-free) output, and number the statistics and the analyses. */
module Combiner {
  import opened Wrappers
  import opened Tables
  import opened Text
  import opened Seqs

  /** `n * ls`, missing when either factor is. */
  function Chi(s: LocalStat): (c: Option<real>)
    ensures c.Some? <==> s.n.Some? && s.ls.Some?
    ensures c.Some? ==> c.value == s.n.value * s.ls.value
  {
    if s.n.Some? && s.ls.Some? then Some(s.n.value * s.ls.value) else None
  }

  /** What remains of a group after sorting on `chi` descending (missing values last) and
      keeping the first row: the larger value, a missing one only when both are. */
  function MaxChi(a: Option<real>, b: Option<real>): (m: Option<real>)
    ensures m.None? <==> a.None? && b.None?
    ensures m.Some? ==> m == a || m == b
    ensures a.Some? ==> m.Some? && m.value >= a.value
    ensures b.Some? ==> m.Some? && m.value >= b.value
  {
    if a.None? then b
    else if b.None? then a
    else if a.value >= b.value then a
    else b
  }

  /** `mos_df`: one `chi` per statistic. */
  type MosTable = map<StatKey, Option<real>>

  /** Folds the worker outputs, in listing order, into `mos_df`. */
  function Mos(files: seq<LocalTable>): (mos: MosTable)
    ensures mos.Keys == set f, k | f in files && k in f :: k
    decreases |files|
  {
    if |files| == 0 then map[]
    else
      var prev := Mos(files[..|files| - 1]);
      var last := files[|files| - 1];
      assert forall f :: f in files <==> f in files[..|files| - 1] || f == last;
      map k | k in prev.Keys + last.Keys ::
        if k !in last then prev[k]
        else if k !in prev then Chi(last[k])
        else MaxChi(prev[k], Chi(last[k]))
  }

  /** The `chi` a worker output gives a statistic; an output without the statistic
      contributes nothing, like a missing `chi`. */
  function ChiIn(f: LocalTable, k: StatKey): Option<real> {
    if k in f then Chi(f[k]) else None
  }

  function ChisOf(files: seq<LocalTable>, k: StatKey): (cs: seq<Option<real>>)
    ensures |cs| == |files|
    ensures forall i :: 0 <= i < |files| ==> cs[i] == ChiIn(files[i], k)
  {
    seq(|files|, i requires 0 <= i < |files| => ChiIn(files[i], k))
  }

  /** `MaxChi` folded over a column. */
  function FoldMaxChi(cs: seq<Option<real>>): Option<real>
    decreases |cs|
  {
    if |cs| == 0 then None else MaxChi(FoldMaxChi(cs[..|cs| - 1]), cs[|cs| - 1])
  }

  lemma {:induction false} FoldMaxChiIsMaximum(cs: seq<Option<real>>)
    ensures FoldMaxChi(cs).None? <==> forall i :: 0 <= i < |cs| ==> cs[i].None?
    ensures FoldMaxChi(cs).Some? ==> forall i :: 0 <= i < |cs| && cs[i].Some? ==> cs[i].value <= FoldMaxChi(cs).value
    ensures FoldMaxChi(cs).Some? ==> exists i :: 0 <= i < |cs| && cs[i] == FoldMaxChi(cs)
    decreases |cs|
  {
    if |cs| > 0 {
      var n := |cs| - 1;
      FoldMaxChiIsMaximum(cs[..n]);
      assert forall i :: 0 <= i < n ==> cs[..n][i] == cs[i];
    }
  }

  /** The fold over the files computes, statistic by statistic, the fold over its column. */
  lemma {:induction false} MosIsFold(files: seq<LocalTable>, k: StatKey)
    ensures k in Mos(files) ==> Mos(files)[k] == FoldMaxChi(ChisOf(files, k))
    ensures k !in Mos(files) ==> FoldMaxChi(ChisOf(files, k)) == None
    decreases |files|
  {
    if |files| > 0 {
      var n := |files| - 1;
      MosIsFold(files[..n], k);
      assert ChisOf(files, k)[..n] == ChisOf(files[..n], k);
    }
  }

  /** The value kept for a statistic is missing exactly when every worker reported it
      with a missing `chi`; otherwise it is the largest `chi` reported, and one of them. */
  lemma MosIsMaximum(files: seq<LocalTable>, k: StatKey)
    requires k in Mos(files)
    ensures Mos(files)[k].None? <==> forall i :: 0 <= i < |files| && k in files[i] ==> Chi(files[i][k]).None?
    ensures Mos(files)[k].Some? ==> forall i :: 0 <= i < |files| && k in files[i] && Chi(files[i][k]).Some? ==>
              Chi(files[i][k]).value <= Mos(files)[k].value
    ensures exists i :: 0 <= i < |files| && k in files[i] && Chi(files[i][k]) == Mos(files)[k]
  {
    var cs := ChisOf(files, k);
    MosIsFold(files, k);
    FoldMaxChiIsMaximum(cs);
    if Mos(files)[k].None? {
      var f :| f in files && k in f;
      var i :| 0 <= i < |files| && files[i] == f;
      assert Chi(files[i][k]) == cs[i];
    }
  }

  /** Which worker wrote which statistic first does not matter: `chi` is the same for
      the outputs listed in the reverse order. */
  lemma MosOfTwoCommutes(a: LocalTable, b: LocalTable)
    ensures Mos([a, b]) == Mos([b, a])
  {
    MosOfTwo(a, b);
    MosOfTwo(b, a);
    PairChiCommutes(a, b);
  }

  /** `mos_df` for two outputs, statistic by statistic. */
  function PairChi(a: LocalTable, b: LocalTable): MosTable {
    map k | k in a.Keys + b.Keys ::
      if k !in b then Chi(a[k]) else if k !in a then Chi(b[k]) else MaxChi(Chi(a[k]), Chi(b[k]))
  }

  lemma MosOfTwo(a: LocalTable, b: LocalTable)
    ensures Mos([a, b]) == PairChi(a, b)
  {
    MosOfOne(a);
    assert [a, b][..1] == [a];
  }

  lemma PairChiCommutes(a: LocalTable, b: LocalTable)
    ensures PairChi(a, b) == PairChi(b, a)
  {
    forall k | k in a && k in b ensures MaxChi(Chi(a[k]), Chi(b[k])) == MaxChi(Chi(b[k]), Chi(a[k])) {
      MaxChiCommutes(Chi(a[k]), Chi(b[k]));
    }
  }

  lemma MosOfOne(a: LocalTable)
    ensures Mos([a]) == map k | k in a :: Chi(a[k])
  {
    assert [a][..0] == [];
  }

  lemma MaxChiCommutes(x: Option<real>, y: Option<real>)
    ensures MaxChi(x, y) == MaxChi(y, x)
  {
  }

  datatype CombinerError = MissingJobId | UnrenderedJobId | NoWorkerOutputs | TrueOutputUnreadable

  /** `compute_mos_values`. With no worker output the listing of the prefix has no
      `Contents` entry, so reading `page["Contents"]` raises `KeyError` before the outputs
      are concatenated. */
  function ComputeMosValues(files: seq<LocalTable>): (r: Result<MosTable, CombinerError>)
    ensures r.Failure? <==> |files| == 0
    ensures r.Success? ==> r.value.Keys == set f, k | f in files && k in f :: k
  {
    if |files| == 0 then Failure(NoWorkerOutputs) else Success(Mos(files))
  }

  /** One row of `true_output.csv`. */
  datatype TrueRow = TrueRow(key: StatKey, value: Option<real>, n: Option<real>)

  /** One row of `mos_output.csv`. */
  datatype CombinedRow = CombinedRow(statisticId: nat, analysisId: nat, key: StatKey,
                                     value: Option<real>, n: Option<real>, chi: Option<real>)

  /** The `groupby(['analysis_name', 'analysis_type'])` key of a statistic. */
  function Group(k: StatKey): (string, string) {
    (k.analysisName, k.analysisType)
  }

  /** The order of those keys: tuples of strings compare field by field. */
  predicate GroupLess(p: (string, string), q: (string, string)) {
    StrLess(p.0, q.0) || (p.0 == q.0 && StrLess(p.1, q.1))
  }

  lemma GroupLessTransitive(p: (string, string), q: (string, string), r: (string, string))
    requires GroupLess(p, q) && GroupLess(q, r)
    ensures GroupLess(p, r)
  {
    if StrLess(p.0, q.0) && StrLess(q.0, r.0) { StrLessTransitive(p.0, q.0, r.0); }
    StrLessIrreflexive(q.0);
    if p.0 == q.0 && q.0 == r.0 { StrLessTransitive(p.1, q.1, r.1); }
  }

  lemma GroupLessIrreflexive(p: (string, string))
    ensures !GroupLess(p, p)
  {
    StrLessIrreflexive(p.0);
    StrLessIrreflexive(p.1);
  }

  lemma GroupLessTotal(p: (string, string), q: (string, string))
    requires p != q
    ensures GroupLess(p, q) || GroupLess(q, p)
  {
    if p.0 != q.0 { StrLessTotal(p.0, q.0); } else { StrLessTotal(p.1, q.1); }
  }

  /** The groups present in the table. */
  function Groups(rows: seq<TrueRow>): set<(string, string)> {
    set i | 0 <= i < |rows| :: Group(rows[i].key)
  }

  /** The groups that sort before `g`. */
  function GroupsBefore(rows: seq<TrueRow>, g: (string, string)): set<(string, string)> {
    set h | h in Groups(rows) && GroupLess(h, g)
  }

  /** `ngroup()` with groups sorted: the number of groups that sort before this one. */
  function AnalysisId(rows: seq<TrueRow>, g: (string, string)): nat {
    |GroupsBefore(rows, g)|
  }

  /** `prep_combined_output`: the left merge keeps every true-output row in order,
      `statistic_id` is the row number, `analysis_id` the group number. */
  function PrepCombinedOutput(trueRows: seq<TrueRow>, mos: MosTable): (out: seq<CombinedRow>)
    ensures |out| == |trueRows|
  {
    seq(|trueRows|, i requires 0 <= i < |trueRows| =>
      var t := trueRows[i];
      CombinedRow(i, AnalysisId(trueRows, Group(t.key)), t.key, t.value, t.n, if t.key in mos then mos[t.key] else None))
  }

  /** A group that sorts earlier has strictly fewer groups before it. */
  lemma AnalysisIdMonotone(rows: seq<TrueRow>, p: (string, string), q: (string, string))
    requires p in Groups(rows) && GroupLess(p, q)
    ensures AnalysisId(rows, p) < AnalysisId(rows, q)
  {
    forall h | h in GroupsBefore(rows, p) ensures h in GroupsBefore(rows, q) {
      GroupLessTransitive(h, p, q);
    }
    GroupLessIrreflexive(p);
    assert p !in GroupsBefore(rows, p);
    SubsetCardinality(GroupsBefore(rows, p), GroupsBefore(rows, q) - {p});
  }

  lemma AnalysisIdBelowGroupCount(rows: seq<TrueRow>, p: (string, string))
    requires p in Groups(rows)
    ensures AnalysisId(rows, p) < |Groups(rows)|
  {
    GroupLessIrreflexive(p);
    SubsetCardinality(GroupsBefore(rows, p), Groups(rows) - {p});
  }

  lemma AnalysisIdInjective(rows: seq<TrueRow>, p: (string, string), q: (string, string))
    requires p in Groups(rows) && q in Groups(rows) && p != q
    ensures AnalysisId(rows, p) != AnalysisId(rows, q)
  {
    GroupLessTotal(p, q);
    if GroupLess(p, q) { AnalysisIdMonotone(rows, p, q); } else { AnalysisIdMonotone(rows, q, p); }
  }

  function IdsOf(rows: seq<TrueRow>, gs: set<(string, string)>): set<nat> {
    set g | g in gs :: AnalysisId(rows, g)
  }

  lemma {:induction false} IdsOfCardinality(rows: seq<TrueRow>, gs: set<(string, string)>)
    requires gs <= Groups(rows)
    ensures |IdsOf(rows, gs)| == |gs|
    decreases |gs|
  {
    if gs != {} {
      var g :| g in gs;
      var rest := gs - {g};
      IdsOfCardinality(rows, rest);
      assert IdsOf(rows, gs) == IdsOf(rows, rest) + {AnalysisId(rows, g)};
      forall h | h in rest ensures AnalysisId(rows, h) != AnalysisId(rows, g) {
        AnalysisIdInjective(rows, h, g);
      }
      assert AnalysisId(rows, g) !in IdsOf(rows, rest);
    }
  }

  /** The numbers below `n`. */
  function Below(n: nat): (r: set<nat>)
    ensures forall x: nat :: x in r <==> x < n
    ensures |r| == n
  {
    if n == 0 then {}
    else
      var prev := Below(n - 1);
      assert n - 1 !in prev;
      prev + {n - 1}
  }

  /** `analysis_id` numbers the groups densely from 0 in sorted order: every id is below
      the number of groups and every number below it is some row's id; rows of the same
      group share their id, rows of different groups do not, and a group sorting earlier
      gets a smaller one. */
  lemma AnalysisIdsNumberSortedGroups(trueRows: seq<TrueRow>, mos: MosTable, i: nat, j: nat)
    requires i < |trueRows| && j < |trueRows|
    ensures var out := PrepCombinedOutput(trueRows, mos);
      && out[i].analysisId < |Groups(trueRows)|
      && (Group(trueRows[i].key) == Group(trueRows[j].key) <==> out[i].analysisId == out[j].analysisId)
      && (GroupLess(Group(trueRows[i].key), Group(trueRows[j].key)) ==> out[i].analysisId < out[j].analysisId)
  {
    var p, q := Group(trueRows[i].key), Group(trueRows[j].key);
    assert p in Groups(trueRows) && q in Groups(trueRows);
    AnalysisIdBelowGroupCount(trueRows, p);
    if p != q { AnalysisIdInjective(trueRows, p, q); }
    if GroupLess(p, q) { AnalysisIdMonotone(trueRows, p, q); }
  }

  lemma AnalysisIdsAreDense(trueRows: seq<TrueRow>, mos: MosTable, a: nat)
    requires a < |Groups(trueRows)|
    ensures exists i :: 0 <= i < |trueRows| && PrepCombinedOutput(trueRows, mos)[i].analysisId == a
  {
    var gs := Groups(trueRows);
    var ids := IdsOf(trueRows, gs);
    IdsOfCardinality(trueRows, gs);
    forall x | x in ids ensures x < |gs| {
      var g :| g in gs && AnalysisId(trueRows, g) == x;
      AnalysisIdBelowGroupCount(trueRows, g);
    }
    if a !in ids {
      SubsetCardinality(ids, Below(|gs|) - {a});
      assert false;
    }
    var g :| g in gs && AnalysisId(trueRows, g) == a;
    var i :| 0 <= i < |trueRows| && Group(trueRows[i].key) == g;
    assert PrepCombinedOutput(trueRows, mos)[i].analysisId == a;
  }

  /** Every row is the true-output row at its position, with the `chi` of its statistic
      when a worker reported it and a missing `chi` otherwise. */
  lemma CombinedRowsFollowTrueOutput(trueRows: seq<TrueRow>, mos: MosTable, i: nat)
    requires i < |trueRows|
    ensures var r := PrepCombinedOutput(trueRows, mos)[i];
      && r.statisticId == i
      && r.key == trueRows[i].key && r.value == trueRows[i].value && r.n == trueRows[i].n
      && (trueRows[i].key in mos ==> r.chi == mos[trueRows[i].key])
      && (trueRows[i].key !in mos ==> r.chi.None?)
  {
  }

  /** The object `write_combined_output_to_s3` writes, and the one `get_mos_values` of
      the sanitizer reads back. */
  function MosOutputKey(jobId: string): string {
    "submissions/" + jobId + "/mos_output.csv"
  }

  /** Different jobs write their combined tables to different objects. */
  lemma MosOutputKeyInjective(a: string, b: string)
    requires MosOutputKey(a) == MosOutputKey(b)
    ensures a == b
  {
    var prefix := "submissions/";
    var suffix := "/mos_output.csv";
    assert MosOutputKey(a)[|prefix|..|MosOutputKey(a)| - |suffix|] == a;
    assert MosOutputKey(b)[|prefix|..|MosOutputKey(b)| - |suffix|] == b;
  }

  /** `lambda_handler`, given the worker outputs and the true output the store holds for
      a job: the key written, the combined table written there, and the next event,
      which is the input with `use_default_epsilon` set. */
  function CombinerStep(event: Payload, workerOutputs: string -> seq<LocalTable>, trueOutput: string -> Option<seq<TrueRow>>)
    : (r: Result<(string, seq<CombinedRow>, Payload), CombinerError>)
    ensures r.Success? ==> r.value.2 == event["use_default_epsilon" := JBool(true)]
    ensures "job_id" !in event ==> r == Failure(MissingJobId)
    ensures "job_id" in event && JsonText(event["job_id"]).None? ==> r == Failure(UnrenderedJobId)
    ensures "job_id" in event && JsonText(event["job_id"]).Some? ==>
      var jobId := JsonText(event["job_id"]).value;
      && (r.Success? <==> |workerOutputs(jobId)| > 0 && trueOutput(jobId).Some?)
      && (r.Success? ==> r.value.0 == MosOutputKey(jobId))
      && (r.Success? ==> r.value.1 == PrepCombinedOutput(trueOutput(jobId).value, ComputeMosValues(workerOutputs(jobId)).value))
  {
    if "job_id" !in event then Failure(MissingJobId)
    else if JsonText(event["job_id"]).None? then Failure(UnrenderedJobId)
    else
      var jobId := JsonText(event["job_id"]).value;
      match ComputeMosValues(workerOutputs(jobId))
      case Failure(e) => Failure(e)
      case Success(mos) =>
        match trueOutput(jobId)
        case None => Failure(TrueOutputUnreadable)
        case Some(trueRows) =>
          Success((MosOutputKey(jobId), PrepCombinedOutput(trueRows, mos), event["use_default_epsilon" := JBool(true)]))
  }
}
