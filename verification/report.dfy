/** The plain-text report of `format_jobs_for_txt`, with the clock reading
    (`datetime.now()` formatted as `%Y-%m-%d %H:%M:%S`) passed in as `now`. */
module Report {
  import opened Wrappers
  import opened Text
  import opened Listing

  /** The text written when there is nothing to report. */
  const NoMatchText: string := "\n--- 조건에 맞는 공고가 없습니다. ---"

  /** Python's `c * n` for a one-character string `c`. */
  function Rule(c: char, n: nat): string
  {
    seq(n, _ => c)
  }

  /** `"=" * 50` and `"-" * 50` in Python: the rules around the banner and after each record. */
  const DoubleRule: string := Rule('=', 50)
  const SingleRule: string := Rule('-', 50)

  /** What surrounds the index in a record header. */
  const HeaderOpen: string := "--- [ "
  const HeaderClose: string := " ] " + Rule('-', 40)

  /** The formatter reads `company.name` and `position` with `[...]` and calls `.get` on
      the address and the reward, so it raises unless all of these hold. */
  predicate Renderable(j: Job)
  {
    j.company.Some? && j.position.Some? && !j.address.NotObject? && !j.reward.NotObject?
  }

  predicate AllRenderable(jobs: seq<Job>)
  {
    forall i :: 0 <= i < |jobs| ==> Renderable(jobs[i])
  }

  /** The three banner lines: a rule preceded by a line break, the time and the count, a rule. */
  function Banner(now: string, count: nat): (lines: seq<string>)
    ensures |lines| == 3
  {
    ["\n" + DoubleRule,
     "| " + now + " - 필터링된 공고 (" + NatToString(count) + "건) |",
     DoubleRule]
  }

  /** The header line of the record numbered `index`. */
  function Header(index: nat): string
  {
    HeaderOpen + Pad2(index) + HeaderClose
  }

  function LocationText(j: Job): string
  {
    match j.address
    case Object(Some(s)) => s
    case _ => "지역 정보 없음"
  }

  function RewardText(j: Job): string
  {
    match j.reward
    case Object(Some(s)) => s
    case _ => "N/A"
  }

  function IdText(j: Job): string
  {
    match j.id
    case Some(n) => NatToString(n)
    case None => "N/A"
  }

  /** The seven lines of the record numbered `index`. */
  function RecordLines(index: nat, j: Job): (lines: seq<string>)
    requires Renderable(j)
    ensures |lines| == 7
  {
    [Header(index),
     "회사: " + j.company.value,
     "직무: " + j.position.value,
     "지역: " + LocationText(j),
     "보상: " + RewardText(j),
     "링크: https://www.wanted.co.kr/wd/" + IdText(j),
     SingleRule]
  }

  /** The records of all listings, numbered from 1 in input order, one block each. */
  function RecordBlocks(jobs: seq<Job>): seq<seq<string>>
    requires AllRenderable(jobs)
  {
    if jobs == [] then []
    else
      assert AllRenderable(jobs[..|jobs| - 1]);
      RecordBlocks(jobs[..|jobs| - 1]) + [RecordLines(|jobs|, jobs[|jobs| - 1])]
  }

  /** Block `i` (from 0) is the record of listing `i`, numbered `i + 1`. */
  lemma {:induction false} RecordBlocksAt(jobs: seq<Job>, i: nat)
    requires AllRenderable(jobs) && i < |jobs|
    ensures |RecordBlocks(jobs)| == |jobs|
    ensures RecordBlocks(jobs)[i] == RecordLines(i + 1, jobs[i])
  {
    var init := jobs[..|jobs| - 1];
    assert AllRenderable(init);
    if i < |jobs| - 1 {
      RecordBlocksAt(init, i);
    } else if init != [] {
      RecordBlocksAt(init, 0);
    }
  }

  lemma RecordBlocksSevens(jobs: seq<Job>)
    requires AllRenderable(jobs)
    ensures |RecordBlocks(jobs)| == |jobs|
    ensures forall i :: 0 <= i < |jobs| ==> |RecordBlocks(jobs)[i]| == 7
  {
    forall i | 0 <= i < |jobs| ensures |RecordBlocks(jobs)[i]| == 7 {
      RecordBlocksAt(jobs, i);
    }
    if jobs != [] {
      RecordBlocksAt(jobs, 0);
    }
  }

  /** The blocks one after the other (`list.extend` applied to each in turn). */
  function Flatten<T>(blocks: seq<seq<T>>): seq<T>
  {
    if blocks == [] then [] else Flatten(blocks[..|blocks| - 1]) + blocks[|blocks| - 1]
  }

  /** With every block seven long, block `k` sits at `7k .. 7k+7` of the flattening. */
  lemma {:induction false} FlattenSevens<T>(blocks: seq<seq<T>>, k: nat)
    requires forall i :: 0 <= i < |blocks| ==> |blocks[i]| == 7
    requires k < |blocks|
    ensures |Flatten(blocks)| == 7 * |blocks|
    ensures Flatten(blocks)[7 * k .. 7 * k + 7] == blocks[k]
  {
    var init := blocks[..|blocks| - 1];
    if k < |blocks| - 1 {
      FlattenSevens(init, k);
    } else if init != [] {
      FlattenSevens(init, 0);
    }
  }

  function Records(jobs: seq<Job>): seq<string>
    requires AllRenderable(jobs)
  {
    Flatten(RecordBlocks(jobs))
  }

  /** The lines joined into the report: the banner, then the records. */
  function ReportLines(jobs: seq<Job>, now: string): seq<string>
    requires AllRenderable(jobs)
  {
    Banner(now, |jobs|) + Records(jobs)
  }

  /** The text `format_jobs_for_txt` returns. */
  function FormatText(jobs: seq<Job>, now: string): string
    requires AllRenderable(jobs)
  {
    if jobs == [] then NoMatchText else Join(ReportLines(jobs, now), "\n")
  }

  /** `format_jobs_for_txt`: the banner, then each listing's seven lines appended in turn. */
  method FormatJobsForTxt(jobs: seq<Job>, now: string) returns (text: string)
    requires AllRenderable(jobs)
    ensures text == FormatText(jobs, now)
  {
    if jobs == [] {
      return NoMatchText;
    }
    var banner := Banner(now, |jobs|);
    var lines := banner;
    for i := 0 to |jobs|
      invariant lines == banner + Records(jobs[..i])
    {
      RecordsSnoc(jobs, i);
      AppendAssoc(banner, Records(jobs[..i]), RecordLines(i + 1, jobs[i]));
      lines := lines + RecordLines(i + 1, jobs[i]);
    }
    assert jobs[..|jobs|] == jobs;
    text := Join(lines, "\n");
  }

  lemma AppendAssoc<T>(a: seq<T>, b: seq<T>, c: seq<T>)
    ensures (a + b) + c == a + (b + c)
  {
  }

  lemma RecordsSnoc(jobs: seq<Job>, i: nat)
    requires AllRenderable(jobs) && i < |jobs|
    ensures AllRenderable(jobs[..i]) && AllRenderable(jobs[..i + 1])
    ensures Records(jobs[..i + 1]) == Records(jobs[..i]) + RecordLines(i + 1, jobs[i])
  {
    assert jobs[..i + 1][..i] == jobs[..i];
  }

  /** A slice of the part after `a` of `a + b` is the same slice of `b`. */
  lemma SliceAfter<T>(a: seq<T>, b: seq<T>, i: nat, j: nat)
    requires i <= j <= |b|
    ensures (a + b)[|a| + i .. |a| + j] == b[i..j]
  {
  }

  /** For `n > 0` listings the report joins `3 + 7n` lines, and the `k`-th record (from 1)
      is the `k`-th listing's seven lines, its header showing `k` zero-padded to two digits. */
  lemma ReportLayout(jobs: seq<Job>, now: string, k: nat)
    requires AllRenderable(jobs) && 1 <= k <= |jobs|
    ensures |ReportLines(jobs, now)| == 3 + 7 * |jobs|
    ensures ReportLines(jobs, now)[3 + 7 * (k - 1) .. 3 + 7 * k] == RecordLines(k, jobs[k - 1])
  {
    RecordsLayout(jobs, k);
    var b := 7 * (k - 1);
    SliceAfter(Banner(now, |jobs|), Records(jobs), b, b + 7);
  }

  /** The records of `n` listings are `7n` lines, the `k`-th seven being record `k`. */
  lemma RecordsLayout(jobs: seq<Job>, k: nat)
    requires AllRenderable(jobs) && 1 <= k <= |jobs|
    ensures |Records(jobs)| == 7 * |jobs|
    ensures Records(jobs)[7 * (k - 1) .. 7 * k] == RecordLines(k, jobs[k - 1])
  {
    RecordBlocksSevens(jobs);
    RecordBlocksAt(jobs, k - 1);
    FlattenSevens(RecordBlocks(jobs), k - 1);
  }

  /** The `k`-th record's header (from 1) is line `3 + 7(k-1)` of the report and shows `k`. */
  lemma HeaderAt(jobs: seq<Job>, now: string, k: nat)
    requires AllRenderable(jobs) && 1 <= k <= |jobs|
    ensures 3 + 7 * (k - 1) < |ReportLines(jobs, now)|
    ensures ReportLines(jobs, now)[3 + 7 * (k - 1)] == Header(k)
  {
    ReportLayout(jobs, now, k);
    var lines := ReportLines(jobs, now);
    var rec := RecordLines(k, jobs[k - 1]);
    var b := 3 + 7 * (k - 1);
    assert lines[b] == lines[b .. b + 7][0];
    RecordStartsWithHeader(k, jobs[k - 1]);
  }

  lemma RecordStartsWithHeader(index: nat, j: Job)
    requires Renderable(j)
    ensures RecordLines(index, j)[0] == Header(index)
  {
  }

  /** Equal strings of the form `p + x + q` with equally long middles have equal middles. */
  lemma SameFrame(p: string, x: string, y: string, q: string)
    requires p + x + q == p + y + q
    ensures x == y
  {
    assert |x| == |y|;
    assert x == (p + x + q)[|p| .. |p| + |x|];
    assert y == (p + y + q)[|p| .. |p| + |y|];
  }

  /** Distinct records carry distinct headers. */
  lemma HeadersDistinct(k: nat, m: nat)
    requires k != m
    ensures Header(k) != Header(m)
  {
    if Header(k) == Header(m) {
      SameFrame(HeaderOpen, Pad2(k), Pad2(m), HeaderClose);
      Pad2Value(k);
    }
  }

  /** The report is the fixed no-match text exactly when there are no listings: a
      non-empty report starts with a line break and a rule of `=`, the no-match text with `-`. */
  lemma NoMatchTextIffEmpty(jobs: seq<Job>, now: string)
    requires AllRenderable(jobs)
    ensures FormatText(jobs, now) == NoMatchText <==> jobs == []
  {
  }
}
