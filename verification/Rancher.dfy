/** Members of Rancher projects. */
module Rancher {

  /** `kind` is the source's Type field, a string that should be one of the two constants. */
  datatype Member = Member(id: string, userId: string, projectId: string, kind: string, principalId: string,
                           roleTemplateId: string)

  const USER := "User"
  const GROUP := "Group"

  /** The equivalence that ignores IDs. */
  predicate Compare(m: Member, p: Member) {
    m.kind == p.kind && m.principalId == p.principalId && m.roleTemplateId == p.roleTemplateId
  }
}
