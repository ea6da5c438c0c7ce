/** The sanitizer of functions/sanitizer.py: attach a privacy budget `epsilon` to every
    statistic of the combined table (the default split, or the analyst's own values),
    add noise scaled by the maximum observed sensitivity, and, on a rerun with new
    epsilons, carry forward the previous run's released rows that were not updated.
    The normal draws `omega` and the stored tables are inputs. */
module Sanitizer {
  import opened Wrappers
  import opened Tables
  import opened Text
  import Config
  import Combiner

  type PosReal = r: real | r > 0.0 witness 1.0

  /** `math.sqrt(2)`: a positive constant whose value the model does not fix. */
  const Root2: PosReal

  /** One row of `mos_output.csv`. */
  type MosRow = Combiner.CombinedRow

  /** One entry of the event's `epsilons` list. */
  datatype EpsilonEntry = EpsilonEntry(statisticId: int, epsilon: real)

  /** A row of the prepared table: its id and budget, and the combined row it joined
      (`None` when a user entry matched no statistic and every other column is NaN). */
  datatype PreparedRow = PreparedRow(statisticId: int, epsilon: real, stat: Option<MosRow>)

  /** A row of `sanitized_output_<run_id>.csv`: `value`, `n` and `omega` are gone. */
  datatype ReleasedRow = ReleasedRow(statisticId: int, analysisId: Option<nat>, key: Option<StatKey>,
                                     chi: Option<real>, epsilon: real, valueSanitized: Option<real>)

  datatype SanitizerError = NoiseDivisionByZero | NoRowAboveThreshold | NoEpsilons | MosOutputUnreadable | PreviousRunUnreadable

  // ---------------------------------------------------------------- the noise formula

  predicate IsCountStatistic(s: MosRow) {
    s.key.statistic == "n" || s.key.statistic == "nobs"
  }

  /** The divisor `add_noise_to_value` uses: `epsilon` for a count, `epsilon * n` for
      any other statistic. A row that matched no statistic has a NaN `statistic`, so it
      takes the second formula, and its NaN `n` makes the divisor NaN (`None`). */
  function NoiseDivisor(row: PreparedRow): Option<real> {
    if row.stat.Some? && IsCountStatistic(row.stat.value) then Some(row.epsilon)
    else if row.stat.Some? && row.stat.value.n.Some? then Some(row.epsilon * row.stat.value.n.value)
    else None
  }

  /** `add_noise_to_value`. The row's fields are Python numbers, so a zero divisor raises
      `ZeroDivisionError` whatever the other operands are. Otherwise a missing operand
      gives a missing result. */
  function AddNoiseToValue(row: PreparedRow, omega: real): (v: Result<Option<real>, SanitizerError>)
    ensures v.Failure? <==> NoiseDivisor(row) == Some(0.0)
    ensures v.Failure? ==> v.error == NoiseDivisionByZero
    ensures v.Success? && v.value.Some? ==> row.stat.Some? && row.stat.value.value.Some?
    ensures v.Success? && v.value.Some? && IsCountStatistic(row.stat.value) ==>
      row.epsilon != 0.0 && v.value.value == row.stat.value.value.value + Root2 * omega / row.epsilon
    ensures v.Success? && v.value.Some? && !IsCountStatistic(row.stat.value) ==>
      var s := row.stat.value;
      && s.chi.Some? && s.n.Some? && row.epsilon * s.n.value != 0.0
      && v.value.value == s.value.value + Root2 * s.chi.value / (row.epsilon * s.n.value) * omega
    ensures row.stat.Some? && row.stat.value.value.Some? && IsCountStatistic(row.stat.value) && row.epsilon != 0.0 ==>
      v.Success? && v.value.Some?
    ensures (&& row.stat.Some? && row.stat.value.value.Some? && !IsCountStatistic(row.stat.value)
             && row.stat.value.chi.Some? && row.stat.value.n.Some? && row.epsilon * row.stat.value.n.value != 0.0) ==>
      v.Success? && v.value.Some?
  {
    if NoiseDivisor(row) == Some(0.0) then Failure(NoiseDivisionByZero)
    else if row.stat.None? || row.stat.value.value.None? then Success(None)
    else
      var s := row.stat.value;
      if IsCountStatistic(s) then Success(Some(s.value.value + Root2 * omega / row.epsilon))
      else if s.chi.None? || s.n.None? then Success(None)
      else Success(Some(s.value.value + Root2 * s.chi.value / (row.epsilon * s.n.value) * omega))
  }

  /** The noise on a count ignores `chi` and `n`. */
  lemma CountNoiseIgnoresSensitivity(row: PreparedRow, chi: Option<real>, n: Option<real>, omega: real)
    requires row.stat.Some? && IsCountStatistic(row.stat.value)
    ensures AddNoiseToValue(PreparedRow(row.statisticId, row.epsilon, Some(row.stat.value.(chi := chi, n := n))), omega)
         == AddNoiseToValue(row, omega)
  {
  }

  /** For other statistics the magnitude of the noise is `sqrt(2) * |chi| * |omega| / |epsilon * n|`,
      so it grows with the sensitivity and shrinks with the budget. */
  lemma NoiseMagnitude(row: PreparedRow, omega: real)
    requires AddNoiseToValue(row, omega).Success? && AddNoiseToValue(row, omega).value.Some?
    requires !IsCountStatistic(row.stat.value)
    ensures var s := row.stat.value;
      var noise := AddNoiseToValue(row, omega).value.value - s.value.value;
      Abs(noise) * Abs(row.epsilon * s.n.value) == Root2 * Abs(s.chi.value) * Abs(omega)
  {
    var s := row.stat.value;
    var d := row.epsilon * s.n.value;
    var noise := AddNoiseToValue(row, omega).value.value - s.value.value;
    assert noise * d == Root2 * s.chi.value * omega;
    AbsProduct(noise, d);
    AbsProduct(Root2 * s.chi.value, omega);
    AbsProduct(Root2, s.chi.value);
  }

  function Abs(x: real): (a: real)
    ensures a >= 0.0 && (a == x || a == -x)
  {
    if x >= 0.0 then x else -x
  }

  lemma AbsProduct(x: real, y: real)
    ensures Abs(x * y) == Abs(x) * Abs(y)
  {
    if x < 0.0 && y >= 0.0 { assert x * y <= 0.0; }
    if x >= 0.0 && y < 0.0 { assert x * y <= 0.0; }
    if x < 0.0 && y < 0.0 { assert x * y > 0.0; }
  }

  // ---------------------------------------------------------------- the default budget

  /** `df["n"] >= N_THRESHOLD`: a missing `n` compares false. */
  predicate AboveThreshold(m: MosRow) {
    m.n.Some? && m.n.value >= Config.NThreshold as real
  }

  /** The rows the mask keeps, in order. */
  function KeepAboveThreshold(mos: seq<MosRow>): (kept: seq<MosRow>)
    ensures |kept| <= |mos|
    ensures forall m :: m in kept <==> m in mos && AboveThreshold(m)
    ensures forall m :: multiset(kept)[m] == if AboveThreshold(m) then multiset(mos)[m] else 0
    decreases |mos|
  {
    if |mos| == 0 then []
    else
      assert mos == [mos[0]] + mos[1..];
      if AboveThreshold(mos[0]) then [mos[0]] + KeepAboveThreshold(mos[1..])
      else KeepAboveThreshold(mos[1..])
  }

  /** `add_default_epsilon_col`: the total budget split evenly over the kept rows; with
      no row kept the division by zero raises. */
  function AddDefaultEpsilonCol(mos: seq<MosRow>): (r: Result<seq<PreparedRow>, SanitizerError>)
    ensures r.Failure? <==> |KeepAboveThreshold(mos)| == 0
    ensures r.Success? ==> var kept := KeepAboveThreshold(mos);
      && |r.value| == |kept|
      && forall i :: 0 <= i < |kept| ==>
           r.value[i] == PreparedRow(kept[i].statisticId, Config.DefaultEpsilon / (|kept| as real), Some(kept[i]))
  {
    var kept := KeepAboveThreshold(mos);
    if |kept| == 0 then Failure(NoRowAboveThreshold)
    else
      var epsilon := Config.DefaultEpsilon / (|kept| as real);
      Success(seq(|kept|, i requires 0 <= i < |kept| => PreparedRow(kept[i].statisticId, epsilon, Some(kept[i]))))
  }

  function SumEpsilon(rows: seq<PreparedRow>): real
    decreases |rows|
  {
    if |rows| == 0 then 0.0 else SumEpsilon(rows[..|rows| - 1]) + rows[|rows| - 1].epsilon
  }

  lemma {:induction false} SumOfEqualEpsilons(rows: seq<PreparedRow>, e: real)
    requires forall i :: 0 <= i < |rows| ==> rows[i].epsilon == e
    ensures SumEpsilon(rows) == (|rows| as real) * e
    decreases |rows|
  {
    if |rows| > 0 {
      SumOfEqualEpsilons(rows[..|rows| - 1], e);
    }
  }

  lemma EvenSplitSumsToTotal(rows: seq<PreparedRow>, total: real)
    requires |rows| > 0
    requires forall i :: 0 <= i < |rows| ==> rows[i].epsilon == total / (|rows| as real)
    ensures SumEpsilon(rows) == total
  {
    SumOfEqualEpsilons(rows, total / (|rows| as real));
    DivThenMul(total, |rows| as real);
  }

  lemma DivThenMul(a: real, k: real)
    requires k > 0.0
    ensures k * (a / k) == a
  {
  }

  /** The default budgets add up to the total budget. */
  lemma DefaultBudgetSumsToTotal(mos: seq<MosRow>)
    requires AddDefaultEpsilonCol(mos).Success?
    ensures SumEpsilon(AddDefaultEpsilonCol(mos).value) == Config.DefaultEpsilon
  {
    EvenSplitSumsToTotal(AddDefaultEpsilonCol(mos).value, Config.DefaultEpsilon);
  }

  /** Only statistics with `n` at least the threshold get a default budget. */
  lemma DefaultBudgetRespectsThreshold(mos: seq<MosRow>, i: nat)
    requires AddDefaultEpsilonCol(mos).Success? && i < |AddDefaultEpsilonCol(mos).value|
    ensures AddDefaultEpsilonCol(mos).value[i].stat.Some?
    ensures AboveThreshold(AddDefaultEpsilonCol(mos).value[i].stat.value)
    ensures AddDefaultEpsilonCol(mos).value[i].stat.value in mos
  {
    var kept := KeepAboveThreshold(mos);
    assert kept[i] in kept;
  }

  /** The threshold is inclusive: a cell of exactly `N_THRESHOLD` is released. */
  lemma ThresholdIsInclusive(m: MosRow)
    requires m.n == Some(10.0)
    ensures KeepAboveThreshold([m]) == [m]
  {
  }

  // ---------------------------------------------------------------- the analyst's budget

  /** The rows of `mos` with a given `statistic_id`, in order. */
  function MatchesOf(mos: seq<MosRow>, id: int): (ms: seq<MosRow>)
    ensures forall m :: m in ms <==> m in mos && m.statisticId as int == id
    decreases |mos|
  {
    if |mos| == 0 then []
    else
      assert mos == [mos[0]] + mos[1..];
      if mos[0].statisticId as int == id then [mos[0]] + MatchesOf(mos[1..], id)
      else MatchesOf(mos[1..], id)
  }

  /** The rows a left merge makes for one entry: one per matching statistic, or a single
      row with the statistic's columns missing. */
  function JoinEntry(e: EpsilonEntry, mos: seq<MosRow>): (rows: seq<PreparedRow>)
    ensures |rows| >= 1
  {
    var ms := MatchesOf(mos, e.statisticId);
    if |ms| == 0 then [PreparedRow(e.statisticId, e.epsilon, None)]
    else seq(|ms|, i requires 0 <= i < |ms| => PreparedRow(e.statisticId, e.epsilon, Some(ms[i])))
  }

  /** `pd.merge(epsilon_df, mos_df, how="left", on="statistic_id")`. */
  function MergeEpsilons(entries: seq<EpsilonEntry>, mos: seq<MosRow>): (rows: seq<PreparedRow>)
    ensures |rows| >= |entries|
    decreases |entries|
  {
    if |entries| == 0 then [] else JoinEntry(entries[0], mos) + MergeEpsilons(entries[1..], mos)
  }

  predicate UniqueIds(mos: seq<MosRow>) {
    forall i, j :: 0 <= i < j < |mos| ==> mos[i].statisticId != mos[j].statisticId
  }

  /** The combined table numbers its rows, so its ids are unique. */
  lemma CombinedIdsAreUnique(trueRows: seq<Combiner.TrueRow>, m: Combiner.MosTable)
    ensures UniqueIds(Combiner.PrepCombinedOutput(trueRows, m))
  {
    forall i | 0 <= i < |trueRows| ensures Combiner.PrepCombinedOutput(trueRows, m)[i].statisticId == i {
      Combiner.CombinedRowsFollowTrueOutput(trueRows, m, i);
    }
  }

  lemma {:induction false} UniqueMatch(mos: seq<MosRow>, id: int)
    requires UniqueIds(mos)
    ensures |MatchesOf(mos, id)| <= 1
    decreases |mos|
  {
    if |mos| > 0 {
      assert UniqueIds(mos[1..]) by {
        forall i, j | 0 <= i < j < |mos[1..]| ensures mos[1..][i].statisticId != mos[1..][j].statisticId {
          assert mos[1..][i] == mos[i + 1] && mos[1..][j] == mos[j + 1];
        }
      }
      UniqueMatch(mos[1..], id);
      if mos[0].statisticId as int == id {
        NoMatches(mos[1..], id);
      }
    }
  }

  lemma {:induction false} NoMatches(mos: seq<MosRow>, id: int)
    requires forall i :: 0 <= i < |mos| ==> mos[i].statisticId as int != id
    ensures MatchesOf(mos, id) == []
    decreases |mos|
  {
    if |mos| > 0 {
      NoMatches(mos[1..], id);
    }
  }

  /** With unique ids in the combined table, the merge makes one row per entry, in entry
      order, carrying the entry's id and budget and the statistic with that id (all
      columns missing if there is none). Statistics not listed are absent, and no
      threshold applies. */
  lemma {:induction false} MergeOnePerEntry(entries: seq<EpsilonEntry>, mos: seq<MosRow>)
    requires UniqueIds(mos)
    ensures |MergeEpsilons(entries, mos)| == |entries|
    ensures forall i :: 0 <= i < |entries| ==>
      var r := MergeEpsilons(entries, mos)[i];
      && r.statisticId == entries[i].statisticId && r.epsilon == entries[i].epsilon
      && (r.stat.Some? ==> r.stat.value in mos && r.stat.value.statisticId as int == entries[i].statisticId)
      && (r.stat.None? ==> forall m :: m in mos ==> m.statisticId as int != entries[i].statisticId)
    decreases |entries|
  {
    if |entries| > 0 {
      UniqueMatch(mos, entries[0].statisticId);
      MergeOnePerEntry(entries[1..], mos);
      var ms := MatchesOf(mos, entries[0].statisticId);
      if |ms| == 1 {
        assert ms[0] in ms;
      }
      var rows := MergeEpsilons(entries, mos);
      assert rows == JoinEntry(entries[0], mos) + MergeEpsilons(entries[1..], mos);
      forall i | 1 <= i < |entries| ensures rows[i] == MergeEpsilons(entries[1..], mos)[i - 1] {
      }
    }
  }

  // ---------------------------------------------------------------- preparing and releasing

  /** `prep_output`. An empty `epsilons` list makes a frame without a `statistic_id`
      column, and the merge on it raises. */
  function PrepOutput(useDefaultEpsilon: bool, entries: seq<EpsilonEntry>, mos: seq<MosRow>)
    : (r: Result<seq<PreparedRow>, SanitizerError>)
    ensures useDefaultEpsilon ==> r == AddDefaultEpsilonCol(mos)
    ensures !useDefaultEpsilon ==> (r.Failure? <==> |entries| == 0)
    ensures !useDefaultEpsilon && r.Success? ==> r.value == MergeEpsilons(entries, mos)
  {
    if useDefaultEpsilon then AddDefaultEpsilonCol(mos)
    else if |entries| == 0 then Failure(NoEpsilons)
    else Success(MergeEpsilons(entries, mos))
  }

  /** One released row: the prepared row with the noisy value, without `value` and `n`. */
  function Release(row: PreparedRow, omega: real): ReleasedRow
    requires AddNoiseToValue(row, omega).Success?
  {
    ReleasedRow(row.statisticId,
                if row.stat.Some? then Some(row.stat.value.analysisId) else None,
                if row.stat.Some? then Some(row.stat.value.key) else None,
                if row.stat.Some? then row.stat.value.chi else None,
                row.epsilon,
                AddNoiseToValue(row, omega).value)
  }

  /** Whether `df.apply(add_noise_to_value, axis=1)` raises on some row. */
  predicate NoiseRaises(prepared: seq<PreparedRow>, omega: seq<real>)
    requires |omega| == |prepared|
  {
    exists i :: 0 <= i < |prepared| && AddNoiseToValue(prepared[i], omega[i]).Failure?
  }

  /** The noise step of `compute_sanitized_values`: one draw per prepared row, and row
      `i` uses draw `i`; a zero divisor on any row raises. */
  function ReleaseAll(prepared: seq<PreparedRow>, omega: seq<real>): (r: Result<seq<ReleasedRow>, SanitizerError>)
    requires |omega| == |prepared|
    ensures r.Failure? <==> exists i :: 0 <= i < |prepared| && NoiseDivisor(prepared[i]) == Some(0.0)
    ensures r.Failure? ==> r.error == NoiseDivisionByZero
    ensures r.Success? ==> |r.value| == |prepared|
    ensures r.Success? ==> forall i :: 0 <= i < |prepared| ==>
      && r.value[i].statisticId == prepared[i].statisticId
      && r.value[i].epsilon == prepared[i].epsilon
      && Success(r.value[i].valueSanitized) == AddNoiseToValue(prepared[i], omega[i])
  {
    if NoiseRaises(prepared, omega) then Failure(NoiseDivisionByZero)
    else Success(seq(|prepared|, i requires 0 <= i < |prepared| => Release(prepared[i], omega[i])))
  }

  // ---------------------------------------------------------------- carrying a run forward

  function EntryIds(entries: seq<EpsilonEntry>): set<int> {
    set e | e in entries :: e.statisticId
  }

  /** `get_unchanged_sanitized_values`: the previous run's rows whose id has no new
      budget, in order. */
  function DropUpdated(previous: seq<ReleasedRow>, ids: set<int>): (kept: seq<ReleasedRow>)
    ensures forall r :: r in kept <==> r in previous && r.statisticId !in ids
    ensures forall r :: multiset(kept)[r] == if r.statisticId in ids then 0 else multiset(previous)[r]
    decreases |previous|
  {
    if |previous| == 0 then []
    else
      assert previous == [previous[0]] + previous[1..];
      if previous[0].statisticId in ids then DropUpdated(previous[1..], ids)
      else [previous[0]] + DropUpdated(previous[1..], ids)
  }

  /** Dropping distributes over concatenation, so the rows kept stay in their order. */
  lemma {:induction false} DropUpdatedConcat(a: seq<ReleasedRow>, b: seq<ReleasedRow>, ids: set<int>)
    ensures DropUpdated(a + b, ids) == DropUpdated(a, ids) + DropUpdated(b, ids)
    decreases |a|
  {
    if |a| == 0 {
      assert a + b == b;
    } else {
      assert (a + b)[0] == a[0] && (a + b)[1..] == a[1..] + b;
      DropUpdatedConcat(a[1..], b, ids);
    }
  }

  predicate SortedById(rows: seq<ReleasedRow>) {
    forall i, j :: 0 <= i < j < |rows| ==> rows[i].statisticId <= rows[j].statisticId
  }

  /** Puts `x` before the first row with a larger or equal id. */
  function InsertById(x: ReleasedRow, rows: seq<ReleasedRow>): (r: seq<ReleasedRow>)
    requires SortedById(rows)
    ensures SortedById(r)
    ensures multiset(r) == multiset(rows) + multiset{x}
    ensures |r| == |rows| + 1
    ensures forall y :: y in r <==> y in rows || y == x
    ensures |rows| > 0 && r[0] != x ==> r[0] == rows[0]
    decreases |rows|
  {
    if |rows| == 0 || x.statisticId <= rows[0].statisticId then [x] + rows
    else
      assert rows == [rows[0]] + rows[1..];
      [rows[0]] + InsertById(x, rows[1..])
  }

  /** `sort_values(by="statistic_id")`, as a stable insertion sort. */
  function SortById(rows: seq<ReleasedRow>): (r: seq<ReleasedRow>)
    ensures SortedById(r)
    ensures multiset(r) == multiset(rows)
    ensures |r| == |rows|
    decreases |rows|
  {
    if |rows| == 0 then []
    else
      assert rows == [rows[0]] + rows[1..];
      InsertById(rows[0], SortById(rows[1..]))
  }

  /** `compute_sanitized_values`, given the draws and the previous run's table as stored
      (`None` when it cannot be read). The noise is computed before the previous run is
      read. */
  function ComputeSanitizedValues(prepared: seq<PreparedRow>, omega: seq<real>, useDefaultEpsilon: bool,
                                  entries: seq<EpsilonEntry>, previous: Option<seq<ReleasedRow>>)
    : (r: Result<seq<ReleasedRow>, SanitizerError>)
    requires |omega| == |prepared|
    ensures useDefaultEpsilon ==> r == ReleaseAll(prepared, omega)
    ensures ReleaseAll(prepared, omega).Failure? ==> r == ReleaseAll(prepared, omega)
    ensures !useDefaultEpsilon ==> (r.Failure? <==> ReleaseAll(prepared, omega).Failure? || previous.None?)
    ensures !useDefaultEpsilon && r.Success? ==>
      && SortedById(r.value)
      && multiset(r.value) == multiset(ReleaseAll(prepared, omega).value) + multiset(DropUpdated(previous.value, EntryIds(entries)))
  {
    match ReleaseAll(prepared, omega)
    case Failure(e) => Failure(e)
    case Success(released) =>
      if useDefaultEpsilon then Success(released)
      else match previous
        case None => Failure(PreviousRunUnreadable)
        case Some(prev) => Success(SortById(released + DropUpdated(prev, EntryIds(entries))))
  }

  /** On a rerun with the analyst's budgets the recomputed and the carried rows have
      disjoint ids: the recomputed ones are exactly the listed ids (every recomputed row has
      a listed id, and every listed id has a recomputed row), the carried ones are
      the previous run's rows for every other id, unchanged. */
  lemma {:induction false} RerunIdsAreDisjoint(entries: seq<EpsilonEntry>, mos: seq<MosRow>, omega: seq<real>,
                                              previous: seq<ReleasedRow>)
    requires |omega| == |MergeEpsilons(entries, mos)|
    ensures ReleaseAll(MergeEpsilons(entries, mos), omega).Success? ==>
      var released := ReleaseAll(MergeEpsilons(entries, mos), omega).value;
      var carried := DropUpdated(previous, EntryIds(entries));
      && (forall r :: r in released ==> r.statisticId in EntryIds(entries))
      && (forall id :: id in EntryIds(entries) ==> exists r :: r in released && r.statisticId == id)
      && (forall r :: r in carried ==> r.statisticId !in EntryIds(entries))
      && (forall r :: r in previous && r.statisticId !in EntryIds(entries) ==> r in carried)
    decreases |entries|
  {
    var prepared := MergeEpsilons(entries, mos);
    MergedIdsAreEntryIds(entries, mos);
    if ReleaseAll(prepared, omega).Success? {
      var released := ReleaseAll(prepared, omega).value;
      forall r | r in released ensures r.statisticId in EntryIds(entries) {
        var i :| 0 <= i < |released| && released[i] == r;
        assert prepared[i] in prepared;
      }
      forall id | id in EntryIds(entries) ensures exists r :: r in released && r.statisticId == id {
        var j :| 0 <= j < |entries| && entries[j].statisticId == id;
        EntryIdsAreMerged(entries, mos, j);
        var i :| 0 <= i < |prepared| && prepared[i].statisticId == id;
        assert released[i] in released;
      }
    }
  }

  lemma {:induction false} MergedIdsAreEntryIds(entries: seq<EpsilonEntry>, mos: seq<MosRow>)
    ensures forall r :: r in MergeEpsilons(entries, mos) ==> r.statisticId in EntryIds(entries)
    decreases |entries|
  {
    if |entries| > 0 {
      MergedIdsAreEntryIds(entries[1..], mos);
      assert entries[0] in entries;
      assert forall e :: e in entries[1..] ==> e in entries;
      var head := JoinEntry(entries[0], mos);
      assert forall r :: r in head ==> r.statisticId == entries[0].statisticId;
    }
  }

  /** The left merge drops no entry: every listed id has a merged row. */
  lemma {:induction false} EntryIdsAreMerged(entries: seq<EpsilonEntry>, mos: seq<MosRow>, j: nat)
    requires j < |entries|
    ensures exists i :: 0 <= i < |MergeEpsilons(entries, mos)| && MergeEpsilons(entries, mos)[i].statisticId == entries[j].statisticId
    decreases |entries|
  {
    var head := JoinEntry(entries[0], mos);
    var tail := MergeEpsilons(entries[1..], mos);
    var rows := MergeEpsilons(entries, mos);
    assert rows == head + tail;
    if j == 0 {
      assert rows[0] == head[0] && head[0].statisticId == entries[0].statisticId;
    } else {
      EntryIdsAreMerged(entries[1..], mos, j - 1);
      var k :| 0 <= k < |tail| && tail[k].statisticId == entries[j].statisticId;
      assert rows[|head| + k] == tail[k];
    }
  }

  // ---------------------------------------------------------------- the handler

  /** The parts of the event the sanitizer reads. */
  datatype SanitizerRequest = SanitizerRequest(jobId: string, runId: int, useDefaultEpsilon: bool,
                                               epsilons: seq<EpsilonEntry>)

  function SanitizedOutputKey(jobId: string, runId: int): string {
    "submissions/" + jobId + "/sanitized_output_" + IntToString(runId) + ".csv"
  }

  /** `lambda_handler`, given the combined table stored at `Combiner.MosOutputKey` of the
      job (`None` when unreadable), the
      stored runs of the job by run id, and the random draws for a given row count. It
      returns the key it writes, the released table, and the status calls and email
      that follow; the event itself is returned unchanged. */
  function SanitizerStep(req: SanitizerRequest, mos: Option<seq<MosRow>>,
                         previousRuns: int -> Option<seq<ReleasedRow>>, draw: nat -> seq<real>)
    : (r: Result<(string, seq<ReleasedRow>, seq<Effect>), SanitizerError>)
    requires forall n: nat :: |draw(n)| == n
    ensures r.Success? ==> r.value.0 == SanitizedOutputKey(req.jobId, req.runId)
    ensures r.Success? ==> r.value.2 == [UpdateJobStatus(StatusRecord(true, "completed", None)),
                                         UpdateRunStatus(StatusRecord(true, "completed", None)),
                                         SendEmail("Validation Server Results", "Results are available.")]
    ensures r.Success? <==>
      && mos.Some?
      && PrepOutput(req.useDefaultEpsilon, req.epsilons, mos.value).Success?
      && (var prepared := PrepOutput(req.useDefaultEpsilon, req.epsilons, mos.value).value;
          ReleaseAll(prepared, draw(|prepared|)).Success?)
      && (!req.useDefaultEpsilon ==> previousRuns(req.runId - 1).Some?)
    ensures r.Success? ==>
      var prepared := PrepOutput(req.useDefaultEpsilon, req.epsilons, mos.value).value;
      var previous := if req.useDefaultEpsilon then None else previousRuns(req.runId - 1);
      r.value.1 == ComputeSanitizedValues(prepared, draw(|prepared|), req.useDefaultEpsilon, req.epsilons, previous).value
  {
    if mos.None? then Failure(MosOutputUnreadable)
    else match PrepOutput(req.useDefaultEpsilon, req.epsilons, mos.value)
      case Failure(e) => Failure(e)
      case Success(prepared) =>
        var omega := draw(|prepared|);
        var previous := if req.useDefaultEpsilon then None else previousRuns(req.runId - 1);
        match ComputeSanitizedValues(prepared, omega, req.useDefaultEpsilon, req.epsilons, previous)
        case Failure(e) => Failure(e)
        case Success(out) =>
          var status := StatusRecord(true, "completed", None);
          Success((SanitizedOutputKey(req.jobId, req.runId), out,
                   [UpdateJobStatus(status), UpdateRunStatus(status),
                    SendEmail("Validation Server Results", "Results are available.")]))
  }
}
