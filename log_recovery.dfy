/**
  The recovery policy of `log_report` for a transfer log that cannot be
  found: another log in the desktop logs directory stands in for it when its
  name contains the missing log's name without the seconds and `.log`, and
  its timestamp is strictly later than the missing log's.

  A timestamp is read from the eight characters before the last four of a
  name (`name[-12:-4]`), underscores removed, as a decimal integer.
 */
module LogRecovery {
  import opened Wrappers
  import opened PyStr
  import opened PosixPath

  /** `int(name[-12:-4].replace('_', ''))`; `None` stands for the ValueError `int` raises. */
  function LogTimestamp(name: string): Option<nat> {
    ParseInt(ReplaceAll(Slice(name, -12, -4), "_", ""))
  }

  /** `os.path.basename(missing)[:-7]`: the missing log's name without its seconds and `.log`. */
  function ItemPrefix(missing: string): string {
    Slice(Basename(missing), 0, -7)
  }

  /** The candidate names the same item as the missing log. */
  predicate SharesItem(missing: string, candidate: string) {
    Contains(candidate, ItemPrefix(missing))
  }

  /** Both timestamps the comparison needs can be read. */
  predicate Comparable(missing: string, candidate: string) {
    LogTimestamp(Basename(candidate)).Some? && LogTimestamp(Basename(missing)).Some?
  }

  /** The candidate may stand in for the missing log. */
  predicate Recovers(missing: string, candidate: string) {
    && SharesItem(missing, candidate)
    && Comparable(missing, candidate)
    && LogTimestamp(Basename(candidate)).value > LogTimestamp(Basename(missing)).value
  }

  /**
    The paths of the logs in `listing` (names in `logsDir`) that stand in for
    `missing`, in listing order; `None` when reading a timestamp raises.
   */
  function FallbackLogs(missing: string, logsDir: string, listing: seq<string>): Option<seq<string>>
    decreases |listing|
  {
    if listing == [] then Some([])
    else
      var candidate := listing[0];
      if !SharesItem(missing, candidate) then FallbackLogs(missing, logsDir, listing[1..])
      else if !Comparable(missing, candidate) then None
      else match FallbackLogs(missing, logsDir, listing[1..])
        case None => None
        case Some(rest) =>
          if Recovers(missing, candidate) then Some([Join(logsDir, candidate)] + rest) else Some(rest)
  }

  /** Reading the timestamps cannot fail on this candidate. */
  predicate Readable(missing: string, candidate: string) {
    SharesItem(missing, candidate) ==> Comparable(missing, candidate)
  }

  /** All candidates of a non-empty listing are readable when the first and those after it are. */
  lemma ReadableSplit(missing: string, listing: seq<string>)
    requires listing != []
    ensures (forall i | 0 <= i < |listing| :: Readable(missing, listing[i]))
        <==> Readable(missing, listing[0]) && forall i | 0 <= i < |listing[1..]| :: Readable(missing, listing[1..][i])
  {
    assert forall i | 1 <= i < |listing| :: listing[i] == listing[1..][i - 1];
  }

  /** The selection fails exactly when some candidate naming the item has an unreadable timestamp. */
  lemma {:induction false} FallbackLogsDefined(missing: string, logsDir: string, listing: seq<string>)
    ensures FallbackLogs(missing, logsDir, listing).Some?
        <==> forall i | 0 <= i < |listing| :: Readable(missing, listing[i])
    decreases |listing|
  {
    if listing != [] {
      FallbackLogsDefined(missing, logsDir, listing[1..]);
      assert FallbackLogs(missing, logsDir, listing).Some?
         <==> Readable(missing, listing[0]) && FallbackLogs(missing, logsDir, listing[1..]).Some?;
      ReadableSplit(missing, listing);
    }
  }

  /**
    The selection is exactly the qualifying candidates: every candidate that
    qualifies is selected, and every selected path is a qualifying candidate
    joined onto the logs directory.
   */
  lemma {:induction false} FallbackLogsExact(missing: string, logsDir: string, listing: seq<string>)
    requires FallbackLogs(missing, logsDir, listing).Some?
    ensures var selected := FallbackLogs(missing, logsDir, listing).value;
      && |selected| <= |listing|
      && (forall c | c in listing && Recovers(missing, c) :: Join(logsDir, c) in selected)
      && (forall p | p in selected :: exists c | c in listing :: Recovers(missing, c) && p == Join(logsDir, c))
    decreases |listing|
  {
    if listing != [] {
      FallbackLogsExact(missing, logsDir, listing[1..]);
      var selected := FallbackLogs(missing, logsDir, listing).value;
      var rest := FallbackLogs(missing, logsDir, listing[1..]).value;
      assert selected == rest || selected == [Join(logsDir, listing[0])] + rest;
      forall c | c in listing && Recovers(missing, c)
        ensures Join(logsDir, c) in selected
      {
        if c != listing[0] {
          assert c in listing[1..];
        }
      }
      forall p | p in selected
        ensures exists c | c in listing :: Recovers(missing, c) && p == Join(logsDir, c)
      {
        if p in rest {
          var c :| c in listing[1..] && Recovers(missing, c) && p == Join(logsDir, c);
          assert c in listing;
        } else {
          assert listing[0] in listing;
        }
      }
    }
  }

  /** `selected[k]` is the kept candidate at position `idx[k]` of `listing`, joined onto `logsDir`. */
  ghost predicate PicksKept(keep: string -> bool, logsDir: string, listing: seq<string>,
                            selected: seq<string>, idx: seq<int>)
  {
    && |idx| == |selected|
    && forall k | 0 <= k < |idx| ::
         0 <= idx[k] < |listing| && keep(listing[idx[k]]) && selected[k] == Join(logsDir, listing[idx[k]])
  }

  ghost predicate Increasing(idx: seq<int>) {
    forall k, l | 0 <= k < l < |idx| :: idx[k] < idx[l]
  }

  /** Every kept candidate's position is among `idx`. */
  ghost predicate CoversKept(keep: string -> bool, listing: seq<string>, idx: seq<int>) {
    forall i | 0 <= i < |listing| && keep(listing[i]) :: i in idx
  }

  /**
    `selected` picks, through the increasing positions `idx`, exactly the
    candidates of `listing` that satisfy `keep`, joined onto `logsDir`.
   */
  ghost predicate SelectsInOrder(keep: string -> bool, logsDir: string, listing: seq<string>,
                                 selected: seq<string>, idx: seq<int>)
  {
    PicksKept(keep, logsDir, listing, selected, idx) && Increasing(idx) && CoversKept(keep, listing, idx)
  }

  /** Positions in `listing[1..]`, moved to positions in `listing`. */
  function Shifted(idx: seq<int>): (r: seq<int>)
    ensures |r| == |idx| && forall k | 0 <= k < |idx| :: r[k] == idx[k] + 1
  {
    seq(|idx|, k requires 0 <= k < |idx| => idx[k] + 1)
  }

  /** The positions of the first candidate (when kept) and of the rest. */
  function StepPositions(first: bool, idx': seq<int>): seq<int> {
    if first then [0] + Shifted(idx') else Shifted(idx')
  }

  /** A selection from `listing[1..]` is one from `listing`, one position later. */
  lemma PicksKeptShift(keep: string -> bool, logsDir: string, listing: seq<string>, rest: seq<string>, idx': seq<int>)
    requires listing != []
    requires PicksKept(keep, logsDir, listing[1..], rest, idx')
    ensures PicksKept(keep, logsDir, listing, rest, Shifted(idx'))
  {
    var shifted := Shifted(idx');
    forall k | 0 <= k < |shifted|
      ensures 0 <= shifted[k] < |listing| && keep(listing[shifted[k]]) && rest[k] == Join(logsDir, listing[shifted[k]])
    {
      assert listing[shifted[k]] == listing[1..][idx'[k]];
    }
  }

  /** Putting a kept candidate at position 0 in front of a selection. */
  lemma PicksKeptCons(keep: string -> bool, logsDir: string, listing: seq<string>, rest: seq<string>, idx: seq<int>)
    requires listing != [] && keep(listing[0])
    requires PicksKept(keep, logsDir, listing, rest, idx)
    ensures PicksKept(keep, logsDir, listing, [Join(logsDir, listing[0])] + rest, [0] + idx)
  {
    var selected, idx0 := [Join(logsDir, listing[0])] + rest, [0] + idx;
    forall k | 1 <= k < |idx0|
      ensures 0 <= idx0[k] < |listing| && keep(listing[idx0[k]]) && selected[k] == Join(logsDir, listing[idx0[k]])
    {
      assert idx0[k] == idx[k - 1] && selected[k] == rest[k - 1];
    }
  }

  lemma PicksKeptStep(keep: string -> bool, logsDir: string, listing: seq<string>, rest: seq<string>, idx': seq<int>)
    requires listing != []
    requires PicksKept(keep, logsDir, listing[1..], rest, idx')
    ensures PicksKept(keep, logsDir, listing,
                      if keep(listing[0]) then [Join(logsDir, listing[0])] + rest else rest,
                      StepPositions(keep(listing[0]), idx'))
  {
    PicksKeptShift(keep, logsDir, listing, rest, idx');
    if keep(listing[0]) {
      PicksKeptCons(keep, logsDir, listing, rest, Shifted(idx'));
    }
  }

  lemma IncreasingStep(first: bool, idx': seq<int>)
    requires Increasing(idx') && forall k | 0 <= k < |idx'| :: idx'[k] >= 0
    ensures Increasing(StepPositions(first, idx'))
  {
    var idx := StepPositions(first, idx');
    var d := if first then 1 else 0;
    forall k, l | 0 <= k < l < |idx|
      ensures idx[k] < idx[l]
    {
      assert idx[l] == idx'[l - d] + 1;
      if k >= d {
        assert idx[k] == idx'[k - d] + 1;
      }
    }
  }

  lemma CoversKeptStep(keep: string -> bool, listing: seq<string>, idx': seq<int>)
    requires listing != []
    requires CoversKept(keep, listing[1..], idx')
    ensures CoversKept(keep, listing, StepPositions(keep(listing[0]), idx'))
  {
    var idx := StepPositions(keep(listing[0]), idx');
    var shifted := Shifted(idx');
    forall i | 0 <= i < |listing| && keep(listing[i])
      ensures i in idx
    {
      if i > 0 {
        assert keep(listing[1..][i - 1]);
        var k :| 0 <= k < |idx'| && idx'[k] == i - 1;
        assert shifted[k] == i;
        assert shifted <= idx || shifted == idx[1..];
      } else {
        assert idx[0] == 0;
      }
    }
  }

  /** The selection the stand-in policy makes, in listing order, through the positions `idx`. */
  ghost predicate StandsInInOrder(missing: string, logsDir: string, listing: seq<string>,
                                  selected: seq<string>, idx: seq<int>)
  {
    SelectsInOrder(c => Recovers(missing, c), logsDir, listing, selected, idx)
  }

  /**
    The stand-ins are selected in listing order: the selection is the
    listing filtered by the policy, each kept candidate joined onto the logs
    directory.
   */
  lemma {:induction false} FallbackLogsInOrder(missing: string, logsDir: string, listing: seq<string>)
    requires FallbackLogs(missing, logsDir, listing).Some?
    ensures exists idx :: StandsInInOrder(missing, logsDir, listing, FallbackLogs(missing, logsDir, listing).value, idx)
    decreases |listing|
  {
    var keep := c => Recovers(missing, c);
    var selected := FallbackLogs(missing, logsDir, listing).value;
    if listing == [] {
      assert StandsInInOrder(missing, logsDir, listing, selected, []);
    } else {
      FallbackLogsInOrder(missing, logsDir, listing[1..]);
      var rest := FallbackLogs(missing, logsDir, listing[1..]).value;
      var idx' :| StandsInInOrder(missing, logsDir, listing[1..], rest, idx');
      assert selected == if keep(listing[0]) then [Join(logsDir, listing[0])] + rest else rest;
      PicksKeptStep(keep, logsDir, listing, rest, idx');
      IncreasingStep(keep(listing[0]), idx');
      CoversKeptStep(keep, listing, idx');
      assert StandsInInOrder(missing, logsDir, listing, selected, StepPositions(keep(listing[0]), idx'));
    }
  }
}
