/** What stands in a protocol, field by field, and what the two filters let through. */
module ProtocolCards {
  import opened Options
  import opened Findings
  import opened ProcessRecord
  import opened Protocol

  // ----- sections -------------------------------------------------------------------------------------------------

  /** Every status has its section: five of their own, the rest needs attention. */
  lemma SectionTable(s: Status)
    ensures SectionOf(s) == "candidates" <==> s == Candidate
    ensures SectionOf(s) == "confirmed" <==> s == ConfirmedViolation
    ensures SectionOf(s) == "negative_verified" <==> s == NegativeVerified
    ensures SectionOf(s) == "suspicions" <==> s == Suspicion
    ensures SectionOf(s) == "missing_evidence" <==> s == MissingEvidence
    ensures SectionOf(s) == "preliminary_no_difference" <==> s == AutoNoDifference
    ensures SectionOf(s) == "needs_attention" <==>
            s in {LowQuality, Abstain, ClarificationRequired, NotComparable, NotApplicable}
  {
  }

  // ----- names ----------------------------------------------------------------------------------------------------

  const STATUS_NAMES: seq<(Status, string)> := [
    (Candidate, "CANDIDATE"), (ConfirmedViolation, "CONFIRMED_VIOLATION"), (NegativeVerified, "NEGATIVE_VERIFIED"),
    (AutoNoDifference, "AUTO_NO_DIFFERENCE"), (MissingEvidence, "MISSING_EVIDENCE"),
    (NotApplicable, "NOT_APPLICABLE"), (NotComparable, "NOT_COMPARABLE"), (LowQuality, "LOW_QUALITY"),
    (Abstain, "ABSTAIN"), (ClarificationRequired, "CLARIFICATION_REQUIRED"), (Suspicion, "SUSPICION")]

  lemma StatusNames(s: Status)
    ensures exists i :: 0 <= i < |STATUS_NAMES| && STATUS_NAMES[i] == (s, StatusName(s))
  {
    var i := match s
      case Candidate => 0
      case ConfirmedViolation => 1
      case NegativeVerified => 2
      case AutoNoDifference => 3
      case MissingEvidence => 4
      case NotApplicable => 5
      case NotComparable => 6
      case LowQuality => 7
      case Abstain => 8
      case ClarificationRequired => 9
      case Suspicion => 10;
    assert STATUS_NAMES[i] == (s, StatusName(s));
  }

  /** Different statuses have different names, so do the actions of inspectors. */
  lemma NamesDiffer(s: Status, t: Status, a: Action, b: Action)
    ensures StatusName(s) == StatusName(t) ==> s == t
    ensures ActionName(a) == ActionName(b) ==> a == b
  {
    hide StatusName;
    StatusNames(s);
    StatusNames(t);
    var i :| 0 <= i < |STATUS_NAMES| && STATUS_NAMES[i] == (s, StatusName(s));
    var j :| 0 <= j < |STATUS_NAMES| && STATUS_NAMES[j] == (t, StatusName(t));
    assert forall k, l | 0 <= k < l < |STATUS_NAMES| :: STATUS_NAMES[k].1 != STATUS_NAMES[l].1;
  }

  lemma ActionNames()
    ensures ActionName(Confirm) == "CONFIRM" && ActionName(Reject) == "REJECT"
    ensures ActionName(RequestClarification) == "REQUEST_CLARIFICATION"
    ensures ActionName(Split) !in {"CONFIRM", "REJECT", "REQUEST_CLARIFICATION"}
    ensures ActionName(Unknown) !in {"CONFIRM", "REJECT", "REQUEST_CLARIFICATION"}
  {
  }

  /** A protocol is assembled from READY on, under the name of the state. */
  lemma StateNames(s: State)
    ensures StateName(s) == None <==> s == Pending || s == Parsing
    ensures StateName(s) == Some("READY") <==> s == Ready
    ensures StateName(s) == Some("VERIFYING") <==> s == Verifying
    ensures StateName(s) == Some("VERIFICATION_COMPLETED") <==> s == Completed
    ensures StateName(s) == Some("PROTOCOL_FINALIZED") <==> s == Finalized
  {
  }

  // ----- cards ----------------------------------------------------------------------------------------------------

  /** The text under a key, or nothing without the key. */
  predicate Holds(card: Json, key: string, text: Option<string>) {
    && card.Object?
    && match text
       case None => key !in card.fields
       case Some(t) => key in card.fields && card.fields[key] == Text(t)
  }

  lemma FieldAdds(m: Payload, key: string, x: Option<string>)
    requires key !in m
    ensures var n := m + Field(key, x);
            Holds(Object(n), key, x) && forall k | k != key :: (k in n <==> k in m) && (k in m ==> n[k] == m[k])
  {
  }

  function DecisionField(d: Option<Decision>): Payload {
    match d case None => map[] case Some(v) => map["inspector_decision" := DecisionCard(v)]
  }

  /** The fields every card has. */
  function Fixed(f: Finding): Payload {
    map["finding_id" := Text(f.id), "rule_code" := Text(f.rule), "finding_status" := Text(StatusName(f.status)),
        "counts_as_violation" := Bool(CountsAsViolation(f)), "rationale" := Text(f.body)]
  }

  lemma CardParts(f: Finding)
    ensures Card(f) == Object(Fixed(f) + Field("evidence_group_id", f.group) + Field("expected_value", f.expected)
                              + Field("actual_value", f.actual) + DecisionField(f.decision))
  {
    hide StatusName; hide DecisionCard; hide Field;
  }

  lemma FixedFields(f: Finding)
    ensures var c := Object(Fixed(f));
            && Holds(c, "finding_id", Some(f.id)) && Holds(c, "rule_code", Some(f.rule))
            && Holds(c, "finding_status", Some(StatusName(f.status))) && Holds(c, "rationale", Some(f.body))
            && "counts_as_violation" in c.fields
            && c.fields["counts_as_violation"] == Bool(f.status == ConfirmedViolation && f.decision != None)
            && c.fields.Keys == {"finding_id", "rule_code", "finding_status", "counts_as_violation", "rationale"}
  {
    hide StatusName;
  }

  /** Every value of a finding stands under its key, a missing one under none. */
  lemma CardFields(f: Finding)
    ensures var c := Card(f);
            && Holds(c, "finding_id", Some(f.id)) && Holds(c, "rule_code", Some(f.rule))
            && Holds(c, "finding_status", Some(StatusName(f.status))) && Holds(c, "rationale", Some(f.body))
            && Holds(c, "evidence_group_id", f.group) && Holds(c, "expected_value", f.expected)
            && Holds(c, "actual_value", f.actual)
            && "counts_as_violation" in c.fields
            && c.fields["counts_as_violation"] == Bool(f.status == ConfirmedViolation && f.decision != None)
            && ("inspector_decision" in c.fields <==> f.decision.Some?)
            && (f.decision.Some? ==> DecisionFields(f.decision.value, c.fields["inspector_decision"]))
  {
    CardParts(f);
    FixedFields(f);
    if f.decision.Some? {
      DecisionIsWritten(f.decision.value);
    }
    hide StatusName; hide Card; hide Field; hide Fixed; hide DecisionCard; hide DecisionFields;
    MoreFields(Fixed(f), f.group, f.expected, f.actual, DecisionField(f.decision));
  }

  lemma MoreFields(m: Payload, g: Option<string>, e: Option<string>, a: Option<string>, d: Payload)
    requires "evidence_group_id" !in m && "expected_value" !in m && "actual_value" !in m && "inspector_decision" !in m
    requires d.Keys <= {"inspector_decision"}
    ensures var r := m + Field("evidence_group_id", g) + Field("expected_value", e) + Field("actual_value", a) + d;
            && Holds(Object(r), "evidence_group_id", g) && Holds(Object(r), "expected_value", e)
            && Holds(Object(r), "actual_value", a) && (forall k | k in m :: k in r && r[k] == m[k])
            && forall k | k == "inspector_decision" :: (k in r <==> k in d) && (k in d ==> r[k] == d[k])
  {
    FieldAdds(m, "evidence_group_id", g);
    var n := m + Field("evidence_group_id", g);
    FieldAdds(n, "expected_value", e);
    var o := n + Field("expected_value", e);
    FieldAdds(o, "actual_value", a);
    hide Field;
  }

  predicate DecisionFields(d: Decision, c: Json) {
    && Holds(c, "inspector_id", Some(d.who)) && Holds(c, "action", Some(ActionName(d.action)))
    && Holds(c, "comment", Some(d.comment)) && Holds(c, "reason_code", d.reason)
  }

  lemma DecisionIsWritten(d: Decision)
    ensures DecisionFields(d, DecisionCard(d))
  {
    hide ActionName;
  }

  lemma HoldsOnce(card: Json, key: string, a: Option<string>, b: Option<string>)
    requires Holds(card, key, a) && Holds(card, key, b)
    ensures a == b
  {
  }

  /** A card gives back its finding: two findings with one card agree in everything but the history of who was human. */
  lemma CardDetermines(f: Finding, g: Finding)
    requires Card(f) == Card(g)
    ensures f.(decision := g.decision) == g
    ensures f.decision.Some? <==> g.decision.Some?
    ensures f.decision.Some? ==> f.decision.value.(byHuman := g.decision.value.byHuman) == g.decision.value
  {
    CardFields(f);
    CardFields(g);
    NamesDiffer(f.status, g.status, Confirm, Confirm);
    hide Card; hide StatusName; hide Holds; hide DecisionFields;
    var c := Card(f);
    HoldsOnce(c, "finding_id", Some(f.id), Some(g.id));
    HoldsOnce(c, "rule_code", Some(f.rule), Some(g.rule));
    HoldsOnce(c, "finding_status", Some(StatusName(f.status)), Some(StatusName(g.status)));
    HoldsOnce(c, "rationale", Some(f.body), Some(g.body));
    HoldsOnce(c, "evidence_group_id", f.group, g.group);
    HoldsOnce(c, "expected_value", f.expected, g.expected);
    HoldsOnce(c, "actual_value", f.actual, g.actual);
    if f.decision.Some? && g.decision.Some? {
      CardIsObject(f);
      DecisionDetermines(f.decision.value, g.decision.value, c.fields["inspector_decision"]);
    }
  }

  lemma CardIsObject(f: Finding)
    ensures Card(f).Object?
  {
  }

  lemma DecisionDetermines(d: Decision, e: Decision, c: Json)
    requires DecisionFields(d, c) && DecisionFields(e, c)
    ensures d.(byHuman := e.byHuman) == e
  {
    NamesDiffer(Candidate, Candidate, d.action, e.action);
    hide ActionName; hide Holds;
    HoldsOnce(c, "inspector_id", Some(d.who), Some(e.who));
    HoldsOnce(c, "action", Some(ActionName(d.action)), Some(ActionName(e.action)));
    HoldsOnce(c, "comment", Some(d.comment), Some(e.comment));
    HoldsOnce(c, "reason_code", d.reason, e.reason);
  }

  // ----- the assembled protocol -----------------------------------------------------------------------------------

  /** The payload: heading, state, one section per name with the cards of its findings beside the completeness
      table, the number of confirmed violations, and the changes of revisions if there are any. */
  lemma ProtocolFields(h: Heading, status: string, findings: seq<Finding>)
    requires ProperHeading(h)
    ensures "confirmed" in Sections(findings)
    ensures var p := AssembleFrom(h, status, Sections(findings));
            && p.Keys == h.others.Keys + {"status", "sections", "violation_count"}
                         + (if h.changes == [] then {} else {"revision_changes"})
            && (forall k | k in h.others :: p[k] == h.others[k])
            && p["status"] == Text(status)
            && (h.changes != [] ==> p["revision_changes"] == List(h.changes))
            && p["violation_count"] == Number(|Members(findings, "confirmed")|)
            && p["sections"].Object?
            && p["sections"].fields.Keys == (set name | name in NAMES) + {"completeness"}
            && p["sections"].fields["completeness"] == List(h.completeness)
            && forall name | name in NAMES :: p["sections"].fields[name] == List(Cards(Members(findings, name)))
  {
    SectionFields(h, findings);
    hide Members; hide Card; hide Cards; hide Sections; hide Lists;
  }

  lemma SectionFields(h: Heading, findings: seq<Finding>)
    ensures "confirmed" in Sections(findings)
            && |Sections(findings)["confirmed"]| == |Members(findings, "confirmed")|
    ensures var fields := Lists(Sections(findings))["completeness" := List(h.completeness)];
            && fields.Keys == (set name | name in NAMES) + {"completeness"}
            && fields["completeness"] == List(h.completeness)
            && forall name | name in NAMES :: fields[name] == List(Cards(Members(findings, name)))
  {
    hide Members; hide Card;
    assert "confirmed" == NAMES[1];
    assert "confirmed" in NAMES && "completeness" !in NAMES;
    var sections := Sections(findings);
    assert sections.Keys == set name | name in NAMES;
    assert Lists(sections).Keys == sections.Keys;
  }

  /** The sections are the seven of `SectionTable`. */
  lemma SevenSections()
    ensures (set name | name in NAMES) ==
            {"candidates", "confirmed", "negative_verified", "suspicions", "missing_evidence", "needs_attention",
             "preliminary_no_difference"}
  {
    assert NAMES[0] in NAMES && NAMES[1] in NAMES && NAMES[2] in NAMES && NAMES[3] in NAMES && NAMES[4] in NAMES;
    assert NAMES[5] in NAMES && NAMES[6] in NAMES;
  }

  // ----- the filters ----------------------------------------------------------------------------------------------

  /** The HTTP filter takes the preliminary section out and touches nothing else. */
  lemma HttpDropsPreliminary(p: Payload)
    ensures ForHttp(p).Keys == p.Keys
    ensures forall k | k in p && k != "sections" :: ForHttp(p)[k] == p[k]
    ensures "sections" in p && !p["sections"].Object? ==> ForHttp(p)["sections"] == p["sections"]
    ensures "sections" in p && p["sections"].Object? ==>
              && ForHttp(p)["sections"].Object?
              && (forall name :: name in ForHttp(p)["sections"].fields <==>
                                 name in p["sections"].fields && name != "preliminary_no_difference")
              && (forall name | name in ForHttp(p)["sections"].fields ::
                    ForHttp(p)["sections"].fields[name] == p["sections"].fields[name])
  {
  }

  /** A section the external filter cannot read: there, and not a list of objects. */
  predicate Malformed(p: Payload, name: string) {
    && "sections" in p && p["sections"].Object? && name in p["sections"].fields
    && !(p["sections"].fields[name].List? && forall row | row in p["sections"].fields[name].items :: row.Object?)
  }

  /** The external filter refuses a payload exactly for a malformed section of the two, and otherwise changes nothing
      but sections, count and changes of revisions, which it takes out. */
  lemma RinRefuses(p: Payload)
    ensures ForRin(p) == None <==> Malformed(p, "confirmed") || Malformed(p, "negative_verified")
    ensures ForRin(p).Some? ==>
              && ForRin(p).value.Keys == p.Keys - {"revision_changes"} + {"sections", "violation_count"}
              && (forall k | k in p && k !in {"revision_changes", "sections", "violation_count"} ::
                    ForRin(p).value[k] == p[k])
  {
    hide Admit;
  }

  /** Every row of the two sections with the status of its section goes through, in order and as often as it is
      there. */
  lemma RinKeepsDecided(p: Payload, name: string, status: string)
    requires (name == "confirmed" && status == "CONFIRMED_VIOLATION")
             || (name == "negative_verified" && status == "NEGATIVE_VERIFIED")
    requires ForRin(p).Some?
    ensures var kept := ForRin(p).value["sections"].fields[name].items;
            var rows := if "sections" in p && p["sections"].Object? && name in p["sections"].fields
                        then p["sections"].fields[name].items else [];
            exists at :: RowsAt(rows, status, at, kept)
  {
    var rows := if "sections" in p && p["sections"].Object? && name in p["sections"].fields
                then p["sections"].fields[name].items else [];
    AdmitPlaces(rows, status);
    assert Admit([], status) == [];
    hide Admit; hide RowsAt;
  }

  /** The kept rows are those at these places, all of the status and no other. */
  ghost predicate RowsAt(rows: seq<Json>, status: string, at: seq<nat>, kept: seq<Json>) {
    && |at| == |kept| && (forall i, j | 0 <= i < j < |at| :: at[i] < at[j])
    && (forall i | 0 <= i < |at| :: at[i] < |rows| && kept[i] == rows[at[i]])
    && forall k: nat | k < |rows| :: k in at <==> Holds(rows[k], "finding_status", Some(status))
  }

  lemma RowsNext(rows: seq<Json>, row: Json, status: string, at: seq<nat>, kept: seq<Json>)
    requires RowsAt(rows, status, at, kept)
    ensures if Holds(row, "finding_status", Some(status)) then RowsAt(rows + [row], status, at + [|rows|], kept + [row])
            else RowsAt(rows + [row], status, at, kept)
  {
    hide Holds;
    var more, k := rows + [row], |rows|;
    assert forall i | 0 <= i < k :: more[i] == rows[i];
    assert more[k] == row;
    var places := at + [k];
    assert forall n: nat :: n in places <==> n in at || n == k;
    assert k !in at;
    assert forall i, j | 0 <= i < j < |places| :: places[i] < places[j];
  }

  lemma {:induction false} AdmitPlaces(rows: seq<Json>, status: string)
    ensures exists at :: RowsAt(rows, status, at, Admit(rows, status))
  {
    if rows == [] {
      assert RowsAt(rows, status, [], []) && Admit(rows, status) == [];
    } else {
      var init, last := rows[..|rows| - 1], rows[|rows| - 1];
      AdmitPlaces(init, status);
      assert rows == init + [last];
      AdmitSnoc(init, last, status);
      hide Admit; hide RowsAt;
      var at :| RowsAt(init, status, at, Admit(init, status));
      RowsNext(init, last, status, at, Admit(init, status));
      assert Admitted(last, status) <==> Holds(last, "finding_status", Some(status));
      assert Admit(init, status) + [] == Admit(init, status);
    }
  }
}
