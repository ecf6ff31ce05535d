/** The document references of a process (domain/models.py), as far as the choice of a revision reads
    them. Names are already parsed: `volume` is the name without its revision mark, `mark` what the
    title block or the name says about the revision, `named` whether the name is not blank. */
module Documents {
  import opened Options

  datatype Stage = PD | RD | ID

  datatype Approval = Approved | NotApproved | Unknown

  datatype Basis = TitleBlock | InspectorSelect | PackageDefault | SoleHead | Unproven

  datatype MarkKind = Unmarked | Change | Correction | Mixed

  datatype Mark = Mark(kind: MarkKind, number: Option<nat>)

  datatype Doc = Doc(
    id: string, hash: string, stage: Stage, code: string, sheet: string, discipline: string,
    approval: Approval, basis: Basis, pred: Option<string>, succ: Option<string>,
    named: bool, volume: string, mark: Mark)

  function Ids(docs: seq<Doc>): set<string> {
    set d | d in docs :: d.id
  }

  ghost predicate DistinctIds(docs: seq<Doc>) {
    forall i, j | 0 <= i < j < |docs| :: docs[i].id != docs[j].id
  }
}
