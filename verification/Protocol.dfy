/** The protocol of a process (application/protocol.py): sections of findings, and the two filters a payload
    passes on its way out. Payloads are JSON values; a clone through canonical JSON is the value itself. */
module Protocol {
  import opened Options
  import opened Findings
  import opened ProcessRecord

  datatype Json =
    | Null | Bool(flag: bool) | Number(number: int) | Text(text: string)
    | List(items: seq<Json>) | Object(fields: map<string, Json>)

  type Payload = map<string, Json>

  // ----- one card ----------------------------------------------------------------------------------------------

  function StatusName(s: Status): string {
    match s
    case Candidate => "CANDIDATE"
    case ConfirmedViolation => "CONFIRMED_VIOLATION"
    case NegativeVerified => "NEGATIVE_VERIFIED"
    case AutoNoDifference => "AUTO_NO_DIFFERENCE"
    case MissingEvidence => "MISSING_EVIDENCE"
    case NotApplicable => "NOT_APPLICABLE"
    case NotComparable => "NOT_COMPARABLE"
    case LowQuality => "LOW_QUALITY"
    case Abstain => "ABSTAIN"
    case ClarificationRequired => "CLARIFICATION_REQUIRED"
    case Suspicion => "SUSPICION"
  }

  predicate CountsAsViolation(f: Finding) {
    f.status == ConfirmedViolation && f.decision.Some?
  }

  function Field(key: string, x: Option<string>): Payload {
    match x case None => map[] case Some(v) => map[key := Text(v)]
  }

  function ActionName(a: Action): string {
    match a
    case Confirm => "CONFIRM"
    case Reject => "REJECT"
    case RequestClarification => "REQUEST_CLARIFICATION"
    case Split => "SPLIT"
    case Unknown => ""
  }

  function DecisionCard(d: Decision): Json {
    Object(map["inspector_id" := Text(d.who), "action" := Text(ActionName(d.action)), "comment" := Text(d.comment)]
           + Field("reason_code", d.reason))
  }

  /** `finding_to_schema` */
  function Card(f: Finding): Json {
    Object(map["finding_id" := Text(f.id), "rule_code" := Text(f.rule), "finding_status" := Text(StatusName(f.status)),
               "counts_as_violation" := Bool(CountsAsViolation(f)), "rationale" := Text(f.body)]
           + Field("evidence_group_id", f.group) + Field("expected_value", f.expected) + Field("actual_value", f.actual)
           + match f.decision case None => map[] case Some(d) => map["inspector_decision" := DecisionCard(d)])
  }

  // ----- sections ------------------------------------------------------------------------------------------------

  const NAMES := ["candidates", "confirmed", "negative_verified", "suspicions", "missing_evidence", "needs_attention",
                  "preliminary_no_difference"]

  /** `_SECTION` */
  function SectionOf(s: Status): string {
    match s
    case Candidate => "candidates"
    case ConfirmedViolation => "confirmed"
    case NegativeVerified => "negative_verified"
    case Suspicion => "suspicions"
    case MissingEvidence => "missing_evidence"
    case AutoNoDifference => "preliminary_no_difference"
    case _ => "needs_attention"
  }

  /** The findings of a section, in their order. */
  function Members(findings: seq<Finding>, section: string): seq<Finding> {
    if findings == [] then []
    else
      var last := findings[|findings| - 1];
      Members(findings[..|findings| - 1], section) + if SectionOf(last.status) == section then [last] else []
  }

  function Cards(findings: seq<Finding>): seq<Json> {
    seq(|findings|, i requires 0 <= i < |findings| => Card(findings[i]))
  }

  function Sections(findings: seq<Finding>): map<string, seq<Json>> {
    map name | name in NAMES :: Cards(Members(findings, name))
  }

  function Lists(sections: map<string, seq<Json>>): Payload {
    map name | name in sections :: List(sections[name])
  }

  function StateName(s: State): Option<string> {
    match s
    case Ready => Some("READY")
    case Verifying => Some("VERIFYING")
    case Completed => Some("VERIFICATION_COMPLETED")
    case Finalized => Some("PROTOCOL_FINALIZED")
    case _ => None
  }

  /** What the protocol takes from elsewhere: identity, versions, manifest and the completeness table. */
  datatype Heading = Heading(others: Payload, completeness: seq<Json>, changes: seq<Json>)

  predicate ProperHeading(h: Heading) {
    "sections" !in h.others && "violation_count" !in h.others && "status" !in h.others
      && "revision_changes" !in h.others
  }

  function AssembleFrom(h: Heading, status: string, sections: map<string, seq<Json>>): Payload
    requires "confirmed" in sections
  {
    h.others
    + map["status" := Text(status),
          "sections" := Object(Lists(sections)["completeness" := List(h.completeness)]),
          "violation_count" := Number(|sections["confirmed"]|)]
    + if h.changes == [] then map[] else map["revision_changes" := List(h.changes)]
  }

  /** `assemble_protocol`; a process that is not ready has no protocol. */
  method AssembleProtocol(h: Heading, findings: seq<Finding>, state: State) returns (p: Option<Payload>)
    ensures p == if StateName(state) == None then None
                 else Some(AssembleFrom(h, StateName(state).value, Sections(findings)))
  {
    ConfirmedIsNamed(findings);
    hide *;
    if StateName(state) == None {
      return None;
    }
    var sections := NoSections();
    for i := 0 to |findings|
      invariant sections == Sections(findings[..i])
    {
      SectionsSnoc(findings[..i], findings[i]);
      assert findings[..i + 1] == findings[..i] + [findings[i]];
      var bucket := SectionOf(findings[i].status);
      sections := sections[bucket := sections[bucket] + [Card(findings[i])]];
    }
    assert findings[..|findings|] == findings;
    p := Some(AssembleFrom(h, StateName(state).value, sections));
  }

  function NoSections(): (r: map<string, seq<Json>>)
    ensures r == Sections([])
  {
    map name | name in NAMES :: []
  }

  lemma ConfirmedIsNamed(findings: seq<Finding>)
    ensures "confirmed" in Sections(findings)
  {
    assert "confirmed" == NAMES[1];
    hide Cards; hide Members;
  }

  lemma NamedSection(s: Status)
    ensures SectionOf(s) in NAMES
  {
    assert NAMES[0] in NAMES && NAMES[1] in NAMES && NAMES[2] in NAMES && NAMES[3] in NAMES;
    assert NAMES[4] in NAMES && NAMES[5] in NAMES && NAMES[6] in NAMES;
  }

  lemma MembersSnoc(findings: seq<Finding>, f: Finding, section: string)
    ensures Members(findings + [f], section)
            == Members(findings, section) + if SectionOf(f.status) == section then [f] else []
  {
    assert (findings + [f])[..|findings|] == findings;
  }

  lemma SectionsSnoc(findings: seq<Finding>, f: Finding)
    ensures var bucket := SectionOf(f.status);
            && bucket in Sections(findings)
            && Sections(findings + [f]) == Sections(findings)[bucket := Sections(findings)[bucket] + [Card(f)]]
  {
    var bucket := SectionOf(f.status);
    NamedSection(f.status);
    hide Members; hide Card; hide SectionOf;
    forall name | name in NAMES
      ensures Cards(Members(findings + [f], name))
              == Cards(Members(findings, name)) + if name == bucket then [Card(f)] else []
    {
      MembersSnoc(findings, f, name);
    }
    assert forall name | name in NAMES :: Cards(Members(findings, name)) + [] == Cards(Members(findings, name));
  }

  // ----- conservation -----------------------------------------------------------------------------------------

  function Total(findings: seq<Finding>, names: seq<string>): nat {
    if names == [] then 0 else Total(findings, names[..|names| - 1]) + |Members(findings, names[|names| - 1])|
  }

  /** Every finding is a member of its own section and of no other. */
  lemma {:induction false} MembersExactly(findings: seq<Finding>, section: string, f: Finding)
    ensures f in Members(findings, section) <==> f in findings && SectionOf(f.status) == section
  {
    hide SectionOf;
    if findings != [] {
      var init, last := findings[..|findings| - 1], findings[|findings| - 1];
      assert findings == init + [last];
      MembersExactly(init, section, f);
    }
  }

  lemma {:induction false} TotalSnoc(findings: seq<Finding>, f: Finding, names: seq<string>)
    requires forall i, j | 0 <= i < j < |names| :: names[i] != names[j]
    ensures Total(findings + [f], names) == Total(findings, names) + if SectionOf(f.status) in names then 1 else 0
  {
    hide SectionOf; hide Members;
    if names != [] {
      var init, last := names[..|names| - 1], names[|names| - 1];
      assert names == init + [last];
      TotalSnoc(findings, f, init);
      MembersSnoc(findings, f, last);
    }
  }

  lemma {:induction false} EmptyTotal(names: seq<string>)
    ensures Total([], names) == 0
  {
    if names != [] {
      EmptyTotal(names[..|names| - 1]);
    }
  }

  /** No finding is lost or doubled: the sections together hold as many findings as there are. */
  lemma {:induction false} SectionsConserve(findings: seq<Finding>)
    ensures Total(findings, NAMES) == |findings|
  {
    if findings == [] {
      EmptyTotal(NAMES);
    } else {
      var init, last := findings[..|findings| - 1], findings[|findings| - 1];
      assert findings == init + [last];
      SectionsConserve(init);
      TotalSnoc(init, last, NAMES);
      NamedSection(last.status);
    }
  }

  function Violations(findings: seq<Finding>): nat {
    if findings == [] then 0
    else Violations(findings[..|findings| - 1]) + if CountsAsViolation(findings[|findings| - 1]) then 1 else 0
  }

  /** The count of the protocol is the number of findings that count as violations. */
  lemma {:induction false} CountIsViolations(findings: seq<Finding>)
    requires forall f | f in findings :: WellFormed(f)
    ensures |Members(findings, "confirmed")| == Violations(findings)
  {
    if findings != [] {
      var init, last := findings[..|findings| - 1], findings[|findings| - 1];
      assert findings == init + [last];
      CountIsViolations(init);
      assert WellFormed(last);
    }
  }

  /** A closed process has no candidates in its protocol. */
  lemma ClosedHasNoCandidates(r: Record)
    requires Kept(r) && (r.state == Completed || r.state == Finalized)
    ensures forall k | k in r.book.order :: k in r.book.at
    ensures Members(Listing(r.book), "candidates") == []
  {
    var found := Members(Listing(r.book), "candidates");
    if found != [] {
      SomeCandidate(r.book);
    }
  }

  lemma SomeCandidate(b: Book)
    requires Sound(b) && Members(Listing(b), "candidates") != []
    ensures HasCandidate(b)
  {
    var f := Members(Listing(b), "candidates")[0];
    MembersExactly(Listing(b), "candidates", f);
    ListingMembers(b, f);
  }

  // ----- the filters ---------------------------------------------------------------------------------------------

  /** `protocol_for_http` */
  function ForHttp(p: Payload): Payload {
    if "sections" in p && p["sections"].Object? then
      p["sections" := Object(p["sections"].fields - {"preliminary_no_difference"})]
    else p
  }

  /** The row is a card with the one status its section admits. */
  predicate Admitted(row: Json, status: string) {
    row.Object? && "finding_status" in row.fields && row.fields["finding_status"] == Text(status)
  }

  function Admit(rows: seq<Json>, status: string): seq<Json> {
    if rows == [] then []
    else Admit(rows[..|rows| - 1], status) + if Admitted(rows[|rows| - 1], status) then [rows[|rows| - 1]] else []
  }

  predicate AllObjects(rows: seq<Json>) {
    forall row | row in rows :: row.Object?
  }

  /** The rows of one section, or nothing when they are malformed, which the source raises. */
  function Cleaned(sections: Json, name: string, status: string): Option<seq<Json>> {
    if !sections.Object? || name !in sections.fields then Some([])
    else
      var rows := sections.fields[name];
      if !rows.List? || !AllObjects(rows.items) then None else Some(Admit(rows.items, status))
  }

  function RawSections(p: Payload): Json {
    if "sections" in p then p["sections"] else Null
  }

  const CONFIRMED := "CONFIRMED_VIOLATION"
  const NEGATIVE := "NEGATIVE_VERIFIED"

  /** `protocol_for_rin` */
  function ForRin(p: Payload): Option<Payload> {
    var confirmed := Cleaned(RawSections(p), "confirmed", CONFIRMED);
    var negative := Cleaned(RawSections(p), "negative_verified", NEGATIVE);
    if confirmed == None || negative == None then None
    else Some(WireForm(p, confirmed.value, negative.value))
  }

  function WireForm(p: Payload, confirmed: seq<Json>, negative: seq<Json>): Payload {
    (p - {"revision_changes"})[
      "sections" := Object(map["confirmed" := List(confirmed), "negative_verified" := List(negative)])][
      "violation_count" := Number(|confirmed|)]
  }

  lemma WireFormDepends(p: Payload, q: Payload, confirmed: seq<Json>, negative: seq<Json>)
    requires p - {"revision_changes", "sections", "violation_count"}
             == q - {"revision_changes", "sections", "violation_count"}
    ensures WireForm(p, confirmed, negative) == WireForm(q, confirmed, negative)
  {
    var x, y := WireForm(p, confirmed, negative), WireForm(q, confirmed, negative);
    var px := p - {"revision_changes", "sections", "violation_count"};
    var qx := q - {"revision_changes", "sections", "violation_count"};
    forall k ensures (k in x <==> k in y) && (k in x && k in y ==> x[k] == y[k]) {
      if k !in {"revision_changes", "sections", "violation_count"} {
        assert k in px <==> k in p;
        assert k in qx <==> k in q;
        assert k in px ==> px[k] == p[k];
        assert k in qx ==> qx[k] == q[k];
      }
    }
  }

  lemma WireFormRest(p: Payload, confirmed: seq<Json>, negative: seq<Json>)
    ensures WireForm(p, confirmed, negative) - {"revision_changes", "sections", "violation_count"} ==
            p - {"revision_changes", "sections", "violation_count"}
  {
  }

  lemma {:induction false} AdmitMembers(rows: seq<Json>, status: string)
    ensures forall row :: row in Admit(rows, status) <==> row in rows && Admitted(row, status)
  {
    hide Admitted;
    if rows != [] {
      var init, last := rows[..|rows| - 1], rows[|rows| - 1];
      assert rows == init + [last];
      AdmitMembers(init, status);
    }
  }

  lemma {:induction false} AdmitTwice(rows: seq<Json>, status: string)
    ensures Admit(Admit(rows, status), status) == Admit(rows, status)
  {
    hide Admitted;
    if rows != [] {
      var init, last := rows[..|rows| - 1], rows[|rows| - 1];
      AdmitTwice(init, status);
      AdmitSnoc(Admit(init, status), last, status);
      assert Admit(init, status) + [] == Admit(init, status);
      assert Admit(rows, status) == Admit(init, status) + if Admitted(last, status) then [last] else [];
    }
  }

  lemma AdmitFacts(rows: seq<Json>, status: string)
    ensures forall row :: row in Admit(rows, status) <==> row in rows && Admitted(row, status)
    ensures Admit(Admit(rows, status), status) == Admit(rows, status)
    ensures AllObjects(Admit(rows, status))
  {
    AdmitMembers(rows, status);
    AdmitTwice(rows, status);
    hide Admit;
    forall row | row in Admit(rows, status) ensures row.Object? {
      AdmittedIsObject(row, status);
    }
  }

  lemma AdmittedIsObject(row: Json, status: string)
    ensures Admitted(row, status) ==> row.Object?
  {
  }

  lemma AdmitSnoc(rows: seq<Json>, row: Json, status: string)
    ensures Admit(rows + [row], status) == Admit(rows, status) + if Admitted(row, status) then [row] else []
  {
    assert (rows + [row])[..|rows|] == rows;
  }

  /** The loops of `protocol_for_rin` over one section. */
  method CleanSection(sections: Json, name: string, status: string) returns (cleaned: Option<seq<Json>>)
    ensures cleaned == Cleaned(sections, name, status)
  {
    if !sections.Object? || name !in sections.fields {
      return Some([]);
    }
    var rows := sections.fields[name];
    if !rows.List? {
      return None;
    }
    var kept: seq<Json> := [];
    for i := 0 to |rows.items|
      invariant AllObjects(rows.items[..i]) && kept == Admit(rows.items[..i], status)
    {
      var row := rows.items[i];
      assert row in rows.items && rows.items[..i + 1] == rows.items[..i] + [row];
      AdmitSnoc(rows.items[..i], row, status);
      if !row.Object? {
        return None;
      }
      if Admitted(row, status) {
        kept := kept + [row];
      }
    }
    assert rows.items[..|rows.items|] == rows.items;
    return Some(kept);
  }

  lemma CleanedTwice(p: Payload, q: Payload, name: string, status: string)
    requires ForRin(p) == Some(q)
    requires (name == "confirmed" && status == CONFIRMED) || (name == "negative_verified" && status == NEGATIVE)
    ensures Cleaned(RawSections(q), name, status) == Cleaned(RawSections(p), name, status)
    ensures Cleaned(RawSections(p), name, status).Some?
  {
    var rows := Cleaned(RawSections(p), name, status).value;
    if RawSections(p).Object? && name in RawSections(p).fields {
      AdmitFacts(RawSections(p).fields[name].items, status);
    }
    hide Admit;
    assert RawSections(q).Object? && RawSections(q).fields[name] == List(rows);
  }

  /** Filtering a filtered payload changes nothing. */
  lemma RinIsIdempotent(p: Payload)
    ensures ForRin(p).Some? ==> ForRin(ForRin(p).value) == ForRin(p)
  {
    if ForRin(p).Some? {
      var q := ForRin(p).value;
      CleanedTwice(p, q, "confirmed", CONFIRMED);
      CleanedTwice(p, q, "negative_verified", NEGATIVE);
      var confirmed := Cleaned(RawSections(p), "confirmed", CONFIRMED);
      var negative := Cleaned(RawSections(p), "negative_verified", NEGATIVE);
      WireFormRest(p, confirmed.value, negative.value);
      WireFormDepends(q, p, confirmed.value, negative.value);
      hide Cleaned; hide WireForm; hide RawSections;
    }
  }

  lemma HttpKeepsSection(p: Payload, name: string, status: string)
    requires name != "preliminary_no_difference"
    ensures Cleaned(RawSections(ForHttp(p)), name, status) == Cleaned(RawSections(p), name, status)
  {
  }

  /** Whether the payload first went through the HTTP filter makes no difference. */
  lemma RinAfterHttp(p: Payload)
    ensures ForRin(ForHttp(p)) == ForRin(p)
  {
    HttpKeepsSection(p, "confirmed", CONFIRMED);
    HttpKeepsSection(p, "negative_verified", NEGATIVE);
    hide Cleaned; hide RawSections; hide WireForm;
    if ForRin(p).Some? {
      var confirmed := Cleaned(RawSections(p), "confirmed", CONFIRMED);
      var negative := Cleaned(RawSections(p), "negative_verified", NEGATIVE);
      HttpRest(p);
      WireFormDepends(ForHttp(p), p, confirmed.value, negative.value);
    }
  }

  lemma HttpRest(p: Payload)
    ensures ForHttp(p) - {"revision_changes", "sections", "violation_count"}
            == p - {"revision_changes", "sections", "violation_count"}
  {
  }

  /** Only decided cards leave: every row on the wire carries the status of its section, and comes from the
      same section of the payload. */
  lemma OnlyDecidedLeave(p: Payload, row: Json)
    requires ForRin(p).Some?
    ensures var sections := ForRin(p).value["sections"];
            && sections.Object? && sections.fields.Keys == {"confirmed", "negative_verified"}
            && sections.fields["confirmed"].List? && sections.fields["negative_verified"].List?
            && ForRin(p).value["violation_count"] == Number(|sections.fields["confirmed"].items|)
            && (row in sections.fields["confirmed"].items ==> Admitted(row, CONFIRMED))
            && (row in sections.fields["negative_verified"].items ==> Admitted(row, NEGATIVE))
  {
    var raw := RawSections(p);
    if raw.Object? && "confirmed" in raw.fields && raw.fields["confirmed"].List? {
      AdmitFacts(raw.fields["confirmed"].items, CONFIRMED);
    }
    if raw.Object? && "negative_verified" in raw.fields && raw.fields["negative_verified"].List? {
      AdmitFacts(raw.fields["negative_verified"].items, NEGATIVE);
    }
    hide Admit; hide Admitted;
  }

  // ----- an assembled protocol on the wire ----------------------------------------------------------------------

  lemma CardStatus(f: Finding, status: string)
    ensures Card(f).Object? && (Admitted(Card(f), status) <==> StatusName(f.status) == status)
  {
    var fields := Card(f).fields;
    assert fields["finding_status"] == Text(StatusName(f.status));
    hide StatusName; hide DecisionCard;
  }

  lemma {:induction false} CardsAdmitted(findings: seq<Finding>, status: string)
    requires forall f | f in findings :: StatusName(f.status) == status
    ensures AllObjects(Cards(findings)) && Admit(Cards(findings), status) == Cards(findings)
  {
    hide Card; hide Admitted;
    if findings != [] {
      var init, last := findings[..|findings| - 1], findings[|findings| - 1];
      assert last in findings && findings == init + [last];
      CardsAdmitted(init, status);
      CardStatus(last, status);
      AdmitSnoc(Cards(init), Card(last), status);
      assert Cards(findings) == Cards(init) + [Card(last)];
    }
  }

  lemma SectionAdmitted(findings: seq<Finding>, section: string, status: string)
    requires (section == "confirmed" && status == CONFIRMED) || (section == "negative_verified" && status == NEGATIVE)
    ensures var rows := Cards(Members(findings, section)); AllObjects(rows) && Admit(rows, status) == rows
  {
    forall f | f in Members(findings, section) ensures StatusName(f.status) == status {
      MembersExactly(findings, section, f);
    }
    hide StatusName;
    CardsAdmitted(Members(findings, section), status);
  }

  lemma AssembledSection(h: Heading, status: string, findings: seq<Finding>, section: string)
    requires ProperHeading(h) && section in NAMES
    ensures "confirmed" in Sections(findings)
    ensures var raw := RawSections(AssembleFrom(h, status, Sections(findings)));
            raw.Object? && section in raw.fields && raw.fields[section] == List(Cards(Members(findings, section)))
  {
    hide Members; hide Cards;
    assert "confirmed" == NAMES[1];
    assert "confirmed" in NAMES && "completeness" !in NAMES;
  }

  /** The wire keeps an assembled protocol's decided cards, all of them and in their order, and its count. */
  lemma WireKeepsProtocol(h: Heading, status: string, findings: seq<Finding>)
    requires ProperHeading(h)
    ensures "confirmed" in Sections(findings)
    ensures var p := AssembleFrom(h, status, Sections(findings));
            && "violation_count" in p && ForRin(p).Some?
            && ForRin(p).value["violation_count"] == p["violation_count"] == Number(|Members(findings, "confirmed")|)
            && ForRin(p).value["sections"] ==
               Object(map["confirmed" := List(Cards(Members(findings, "confirmed"))),
                          "negative_verified" := List(Cards(Members(findings, "negative_verified")))])
  {
    assert NAMES[1] == "confirmed" && NAMES[2] == "negative_verified";
    assert "confirmed" in NAMES && "negative_verified" in NAMES;
    AssembledSection(h, status, findings, "confirmed");
    AssembledSection(h, status, findings, "negative_verified");
    SectionAdmitted(findings, "confirmed", CONFIRMED);
    SectionAdmitted(findings, "negative_verified", NEGATIVE);
    AssembledCount(h, status, findings);
    hide Admit; hide AllObjects; hide RawSections; hide AssembleFrom; hide Members; hide Cards;
  }

  lemma AssembledCount(h: Heading, status: string, findings: seq<Finding>)
    requires ProperHeading(h)
    ensures "confirmed" in Sections(findings)
    ensures var p := AssembleFrom(h, status, Sections(findings));
            "violation_count" in p && p["violation_count"] == Number(|Members(findings, "confirmed")|)
  {
    hide Members;
    assert NAMES[1] == "confirmed" && "confirmed" in NAMES;
  }
}
