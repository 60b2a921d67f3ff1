/** Sessions and their rows, as public/delegation-sessions.ts sees them. */
module SessionModel {
  import opened Common

  type SessionId = s: string | s != "" witness "s"

  datatype Tier = Need | Fail | Work | Idle

  /** `organization`: undefined, not a valid record, or a record with its group. */
  datatype Organization = Undeclared | Unavailable | Organized(group: Option<string>)

  /** `ref` is the identity of the session object; `id` and `parent` are what
      sessionIdentityId and sessionParentReference read from it. */
  datatype Session = Session(
    ref: nat,
    id: Option<SessionId>,
    parent: Option<SessionId>,
    name: string,
    tier: Tier,
    changedAt: Option<int>,
    activeAt: Option<int>,
    organization: Organization)

  datatype Role = Root | Child | Orphan

  datatype Row = Row(session: Session, role: Role, parent: Option<SessionId>, childCount: Option<nat>)
}
