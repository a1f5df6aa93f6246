/** The dry-run report: the artifact a customer signs off (crates/dam-core/src/crosswalk.rs). */
module Report {
  import opened Crosswalk
  import opened Wrappers

  datatype Coverage = Coverage(present: nat, mapped: nat, ignored: bool)

  datatype Report = Report(
    records: nat, wouldArrive: nat, wouldFail: nat, wouldBeInvalid: nat,
    coverage: map<string, Coverage>, warnings: map<string, nat>, rejections: map<string, nat>)

  const EMPTY: Report := Report(0, 0, 0, 0, map[], map[], map[])

  /** A record, what it mapped to, and the validator's refusal of that payload, if it refused. */
  datatype Judged = Judged(record: Record, mapped: Mapped, rejected: Option<seq<string>>)

  function Counted(counts: map<string, nat>, code: string): nat {
    if code in counts then counts[code] else 0
  }

  function Bump(counts: map<string, nat>, code: string): map<string, nat> {
    counts[code := Counted(counts, code) + 1]
  }

  predicate Landed(crosswalk: Crosswalk, mapped: Mapped, name: string) {
    exists i :: 0 <= i < |crosswalk.rules| && crosswalk.rules[i].source == name
                && crosswalk.rules[i].target in mapped.payload
  }

  function Cover(coverage: map<string, Coverage>, crosswalk: Crosswalk, mapped: Mapped, field: Field)
    : map<string, Coverage>
  {
    if IsNothing(field.value) then coverage
    else
      var entry := if field.name in coverage then coverage[field.name] else Coverage(0, 0, false);
      coverage[field.name := Coverage(entry.present + 1,
                                      entry.mapped + (if Landed(crosswalk, mapped, field.name) then 1 else 0),
                                      field.name in crosswalk.ignored)]
  }

  ghost function CoverAll(coverage: map<string, Coverage>, crosswalk: Crosswalk, mapped: Mapped,
                          fields: seq<Field>): map<string, Coverage>
    decreases |fields|
  {
    if fields == [] then coverage
    else CoverAll(Cover(coverage, crosswalk, mapped, fields[0]), crosswalk, mapped, fields[1..])
  }

  ghost function BumpAll(counts: map<string, nat>, codes: seq<string>): map<string, nat>
    decreases |codes|
  {
    if codes == [] then counts else BumpAll(Bump(counts, codes[0]), codes[1..])
  }

  ghost function WarningCodes(warnings: seq<Warning>): (codes: seq<string>)
    ensures |codes| == |warnings|
  {
    seq(|warnings|, i requires 0 <= i < |warnings| => warnings[i].loss.Code())
  }

  /** The warnings of a record, the one that refused it included. */
  ghost function Codes(mapped: Mapped): seq<string> {
    WarningCodes(mapped.warnings) + (match mapped.fatal { case Some(w) => [w.loss.Code()] case None => [] })
  }

  function Verdict(report: Report, judged: Judged): Report {
    if judged.mapped.fatal.Some? then report.(wouldFail := report.wouldFail + 1)
    else if judged.rejected.None? then report.(wouldArrive := report.wouldArrive + 1)
    else report.(wouldBeInvalid := report.wouldBeInvalid + 1)
  }

  ghost function Fold(report: Report, crosswalk: Crosswalk, judged: Judged): Report {
    Verdict(report, judged).(
      records := report.records + 1,
      coverage := CoverAll(report.coverage, crosswalk, judged.mapped, judged.record),
      warnings := BumpAll(report.warnings, Codes(judged.mapped)),
      rejections := BumpAll(report.rejections, judged.rejected.GetOr([])))
  }

  lemma {:induction false} BumpAllAppends(counts: map<string, nat>, codes: seq<string>, code: string)
    ensures BumpAll(counts, codes + [code]) == Bump(BumpAll(counts, codes), code)
    decreases |codes|
  {
    if codes == [] {
      assert [code][1..] == [];
    } else {
      assert (codes + [code])[1..] == codes[1..] + [code];
      BumpAllAppends(Bump(counts, codes[0]), codes[1..], code);
    }
  }

  method AccrueRejections(report: Report, rejections: seq<string>) returns (out: Report)
    ensures out == report.(rejections := BumpAll(report.rejections, rejections))
  {
    out := report;
    for i := 0 to |rejections|
      invariant out == report.(rejections := BumpAll(report.rejections, rejections[..i]))
    {
      assert rejections[..i + 1] == rejections[..i] + [rejections[i]];
      BumpAllAppends(report.rejections, rejections[..i], rejections[i]);
      out := out.(rejections := Bump(out.rejections, rejections[i]));
    }
    assert rejections[..|rejections|] == rejections;
  }

  method Accrue(report: Report, crosswalk: Crosswalk, judged: Judged) returns (out: Report)
    ensures out == Fold(report, crosswalk, judged).(rejections := report.rejections)
  {
    var record, mapped := judged.record, judged.mapped;
    out := report.(records := report.records + 1);
    for i := 0 to |record|
      invariant out == report.(records := report.records + 1, coverage := out.coverage)
      invariant CoverAll(report.coverage, crosswalk, mapped, record)
                == CoverAll(out.coverage, crosswalk, mapped, record[i..])
    {
      assert record[i..][1..] == record[i + 1..];
      out := out.(coverage := Cover(out.coverage, crosswalk, mapped, record[i]));
    }
    ghost var codes := WarningCodes(mapped.warnings);
    for i := 0 to |mapped.warnings|
      invariant out == report.(records := report.records + 1,
                               coverage := CoverAll(report.coverage, crosswalk, mapped, record),
                               warnings := BumpAll(report.warnings, codes[..i]))
    {
      assert codes[..i + 1] == codes[..i] + [codes[i]];
      BumpAllAppends(report.warnings, codes[..i], codes[i]);
      out := out.(warnings := Bump(out.warnings, mapped.warnings[i].loss.Code()));
    }
    assert codes[..|mapped.warnings|] == codes && codes + [] == codes;
    if mapped.fatal.Some? {
      BumpAllAppends(report.warnings, codes, mapped.fatal.value.loss.Code());
      out := out.(warnings := Bump(out.warnings, mapped.fatal.value.loss.Code()));
    }
    out := Verdict(out, judged);
  }

  // ---------- what a whole report says ----------

  ghost function FoldAll(report: Report, crosswalk: Crosswalk, all: seq<Judged>): Report
    decreases |all|
  {
    if all == [] then report else FoldAll(Fold(report, crosswalk, all[0]), crosswalk, all[1..])
  }

  ghost predicate WouldArrive(judged: Judged) {
    judged.mapped.fatal.None? && judged.rejected.None?
  }

  ghost function CountArriving(all: seq<Judged>): nat {
    if all == [] then 0 else (if WouldArrive(all[0]) then 1 else 0) + CountArriving(all[1..])
  }

  ghost function CountRefused(all: seq<Judged>): nat {
    if all == [] then 0 else (if all[0].mapped.fatal.Some? then 1 else 0) + CountRefused(all[1..])
  }

  ghost predicate Carries(judged: Judged, name: string) {
    exists i :: 0 <= i < |judged.record| && judged.record[i].name == name && !IsNothing(judged.record[i].value)
  }

  ghost function CountPresent(all: seq<Judged>, name: string): nat {
    if all == [] then 0 else (if Carries(all[0], name) then 1 else 0) + CountPresent(all[1..], name)
  }

  /** Some rule reads a field into a target that was filled. */
  ghost predicate FilledFrom(crosswalk: Crosswalk, mapped: Mapped, name: string) {
    exists rule :: rule in crosswalk.rules && rule.source == name && rule.target in mapped.payload
  }

  ghost function CountLanded(crosswalk: Crosswalk, all: seq<Judged>, name: string): nat {
    if all == [] then 0
    else (if Carries(all[0], name) && FilledFrom(crosswalk, all[0].mapped, name) then 1 else 0)
         + CountLanded(crosswalk, all[1..], name)
  }

  ghost function Occurrences(codes: seq<string>, code: string): nat {
    multiset(codes)[code]
  }

  ghost function CountCode(all: seq<Judged>, code: string): nat {
    if all == [] then 0 else Occurrences(Codes(all[0].mapped), code) + CountCode(all[1..], code)
  }

  lemma {:induction false} VerdictsAddUp(report: Report, crosswalk: Crosswalk, all: seq<Judged>)
    ensures var done := FoldAll(report, crosswalk, all);
            && done.records == report.records + |all|
            && done.wouldArrive == report.wouldArrive + CountArriving(all)
            && done.wouldFail == report.wouldFail + CountRefused(all)
            && done.wouldArrive + done.wouldFail + done.wouldBeInvalid
               == report.wouldArrive + report.wouldFail + report.wouldBeInvalid + |all|
    decreases |all|
  {
    if all != [] {
      VerdictsAddUp(Fold(report, crosswalk, all[0]), crosswalk, all[1..]);
    }
  }

  ghost function PresentOf(coverage: map<string, Coverage>, name: string): nat {
    if name in coverage then coverage[name].present else 0
  }

  ghost function MappedOf(coverage: map<string, Coverage>, name: string): nat {
    if name in coverage then coverage[name].mapped else 0
  }

  ghost predicate CarriedBy(fields: seq<Field>, name: string) {
    exists i :: 0 <= i < |fields| && fields[i].name == name && !IsNothing(fields[i].value)
  }

  lemma {:induction false} CoverAllSpec(coverage: map<string, Coverage>, crosswalk: Crosswalk, mapped: Mapped,
      fields: seq<Field>, name: string)
    requires DistinctNames(fields)
    ensures var done := CoverAll(coverage, crosswalk, mapped, fields);
            var here := if CarriedBy(fields, name) then 1 else 0;
            && PresentOf(done, name) == PresentOf(coverage, name) + here
            && MappedOf(done, name) == MappedOf(coverage, name) + (if Landed(crosswalk, mapped, name) then here else 0)
    decreases |fields|
  {
    if fields != [] {
      var rest := fields[1..];
      CoverAllSpec(Cover(coverage, crosswalk, mapped, fields[0]), crosswalk, mapped, rest, name);
      assert forall i :: 0 <= i < |rest| ==> rest[i] == fields[i + 1];
      if i :| 0 <= i < |fields| && fields[i].name == name && !IsNothing(fields[i].value) {
        if i > 0 {
          assert rest[i - 1] == fields[i];
        }
      }
    }
  }

  lemma {:induction false} CoverageAddsUp(report: Report, crosswalk: Crosswalk, all: seq<Judged>, name: string)
    ensures var done := FoldAll(report, crosswalk, all);
            && PresentOf(done.coverage, name) == PresentOf(report.coverage, name) + CountPresent(all, name)
            && MappedOf(done.coverage, name) == MappedOf(report.coverage, name) + CountLanded(crosswalk, all, name)
    decreases |all|
  {
    if all != [] {
      CoverAllSpec(report.coverage, crosswalk, all[0].mapped, all[0].record, name);
      CoverageAddsUp(Fold(report, crosswalk, all[0]), crosswalk, all[1..], name);
    }
  }

  lemma {:induction false} BumpAllCounts(counts: map<string, nat>, codes: seq<string>, code: string)
    ensures Counted(BumpAll(counts, codes), code) == Counted(counts, code) + Occurrences(codes, code)
    decreases |codes|
  {
    if codes != [] {
      assert codes == [codes[0]] + codes[1..];
      BumpAllCounts(Bump(counts, codes[0]), codes[1..], code);
    }
  }

  lemma {:induction false} WarningsAddUp(report: Report, crosswalk: Crosswalk, all: seq<Judged>, code: string)
    ensures Counted(FoldAll(report, crosswalk, all).warnings, code)
            == Counted(report.warnings, code) + CountCode(all, code)
    decreases |all|
  {
    if all != [] {
      BumpAllCounts(report.warnings, Codes(all[0].mapped), code);
      WarningsAddUp(Fold(report, crosswalk, all[0]), crosswalk, all[1..], code);
    }
  }

  ghost function CountRejection(all: seq<Judged>, code: string): nat {
    if all == [] then 0 else Occurrences(all[0].rejected.GetOr([]), code) + CountRejection(all[1..], code)
  }

  lemma {:induction false} RejectionsAddUp(report: Report, crosswalk: Crosswalk, all: seq<Judged>, code: string)
    ensures Counted(FoldAll(report, crosswalk, all).rejections, code)
            == Counted(report.rejections, code) + CountRejection(all, code)
    decreases |all|
  {
    if all != [] {
      BumpAllCounts(report.rejections, all[0].rejected.GetOr([]), code);
      RejectionsAddUp(Fold(report, crosswalk, all[0]), crosswalk, all[1..], code);
    }
  }

  /** The codes a report counts under are the kinds of loss, and only the two ways to have too many values share
      one. */
  lemma {:induction false} CodesAreKinds(loss: Loss)
    ensures loss.Code() == "unmapped_field" <==> loss.Unmapped?
    ensures loss.Code() == "unmapped_value" <==> loss.NoEntry?
    ensures loss.Code() == "unparseable_date" <==> loss.BadDate?
    ensures loss.Code() == "single_valued_target" <==> loss.TooManyParts? || loss.TooManyMapped?
    ensures loss.Code() == "unknown_target_field" <==> loss.UnknownTarget?
    ensures loss.Code() == "read_only_target_field" <==> loss.ReadOnlyTarget?
  {
    assert "unmapped_field"[9] != "unmapped_value"[9] && |"unmapped_field"| == 14 == |"unmapped_value"|;
    assert |"unparseable_date"| == 16 && |"single_valued_target"| == 20;
    assert "single_valued_target"[0] != "unknown_target_field"[0] && |"unknown_target_field"| == 20;
    assert |"read_only_target_field"| == 22;
  }

  ghost predicate FlagsAgree(coverage: map<string, Coverage>, crosswalk: Crosswalk) {
    forall name :: name in coverage ==> (coverage[name].ignored <==> name in crosswalk.ignored)
  }

  lemma {:induction false} CoverKeepsFlags(coverage: map<string, Coverage>, crosswalk: Crosswalk, mapped: Mapped,
                                           fields: seq<Field>)
    requires FlagsAgree(coverage, crosswalk)
    ensures FlagsAgree(CoverAll(coverage, crosswalk, mapped, fields), crosswalk)
    decreases |fields|
  {
    if fields != [] {
      CoverKeepsFlags(Cover(coverage, crosswalk, mapped, fields[0]), crosswalk, mapped, fields[1..]);
    }
  }

  lemma {:induction false} FlagsAddUp(report: Report, crosswalk: Crosswalk, all: seq<Judged>)
    requires FlagsAgree(report.coverage, crosswalk)
    ensures FlagsAgree(FoldAll(report, crosswalk, all).coverage, crosswalk)
    decreases |all|
  {
    if all != [] {
      CoverKeepsFlags(report.coverage, crosswalk, all[0].mapped, all[0].record);
      FlagsAddUp(Fold(report, crosswalk, all[0]), crosswalk, all[1..]);
    }
  }

  lemma {:induction false} LandedIsPresent(crosswalk: Crosswalk, all: seq<Judged>, name: string)
    ensures CountLanded(crosswalk, all, name) <= CountPresent(all, name) <= |all|
  {
    if all != [] {
      LandedIsPresent(crosswalk, all[1..], name);
    }
  }

  /** The report conserves records and losses: every record has exactly one verdict, each source field's coverage
      counts exactly the records that carried it and those of them whose target was filled, and says whether it was
      decided against, and each code's count is the number of warnings with that code. */
  lemma {:induction false} ReportAddsUp(crosswalk: Crosswalk, all: seq<Judged>, name: string, code: string)
    ensures var report := FoldAll(EMPTY, crosswalk, all);
            && report.records == |all| == report.wouldArrive + report.wouldFail + report.wouldBeInvalid
            && report.wouldArrive == CountArriving(all) && report.wouldFail == CountRefused(all)
            && PresentOf(report.coverage, name) == CountPresent(all, name)
            && MappedOf(report.coverage, name) == CountLanded(crosswalk, all, name)
            && MappedOf(report.coverage, name) <= PresentOf(report.coverage, name) <= report.records
            && (name in report.coverage ==> (report.coverage[name].ignored <==> name in crosswalk.ignored))
            && Counted(report.warnings, code) == CountCode(all, code)
            && Counted(report.rejections, code) == CountRejection(all, code)
  {
    FlagsAddUp(EMPTY, crosswalk, all);
    RejectionsAddUp(EMPTY, crosswalk, all, code);
    VerdictsAddUp(EMPTY, crosswalk, all);
    CoverageAddsUp(EMPTY, crosswalk, all, name);
    WarningsAddUp(EMPTY, crosswalk, all, code);
    LandedIsPresent(crosswalk, all, name);
  }
}
