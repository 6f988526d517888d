/** Cluster configurations: who votes, who learns, and what a list of membership changes asks for. */
module Configuration {
  import opened Common

  datatype ChangeType = AddNode | RemoveNode | AddLearnerNode | UpdateNode

  /** One requested change, `ConfChangeSingle`. */
  datatype Change = Change(changeType: ChangeType, nodeId: U64)

  datatype ConfError =
    | ConfChangeError
    | LearnersNextMustBeEmpty
    | AutoLeaveMustBeFalse
    | ConfigAlreadyJoint
    | ZeroVoterConfigJoint
    | LeaveNonJointConfig
    | CannotApplySimpleInJointConfig
    | RemovedAllVoters
    | MultipleVotersChangedWithoutJoint

  /** `TrackerConfiguration`: the two voter halves, the learners and the learners-to-be. */
  datatype Conf = Conf(
    incoming: set<U64>,
    outgoing: set<U64>,
    learners: set<U64>,
    learnersNext: set<U64>,
    autoLeave: bool)
  {
    predicate Joint() { outgoing != {} }

    function Ids(): set<U64> { incoming + outgoing + learners + learnersNext }

    /** Every id has one place: voter, learner, or outgoing voter about to learn. */
    ghost predicate Consistent() {
      && learners !! incoming && learners !! outgoing
      && learnersNext <= outgoing && learnersNext !! incoming
    }

    /** Consistent, and outside a joint phase nothing is left over from one. */
    ghost predicate Strong() {
      Consistent() && (!Joint() ==> learnersNext == {} && !autoLeave)
    }
  }

  const EMPTY_CONF := Conf({}, {}, {}, {}, false)

  // ----- Roles: the configuration a change list is aiming at -----------------------------------

  /** What a member is, or will be once any joint phase is over. */
  datatype Role = Voter | Learner

  type Roles = map<U64, Role>

  function RolesOf(c: Conf): Roles {
    map id | id in c.incoming + (c.learners + c.learnersNext) :: if id in c.incoming then Voter else Learner
  }

  function Those(roles: Roles, role: Role): set<U64> { set id | id in roles && roles[id] == role }

  /** The configuration with these roles while `outgoing` still has to be consulted. */
  function Layout(roles: Roles, outgoing: set<U64>, autoLeave: bool): Conf {
    var l := Those(roles, Learner);
    Conf(Those(roles, Voter), outgoing, l - outgoing, l * outgoing, autoLeave)
  }

  function Assign(roles: Roles, change: Change): Roles {
    if change.nodeId == 0 then roles
    else match change.changeType
      case AddNode => roles[change.nodeId := Voter]
      case AddLearnerNode => roles[change.nodeId := Learner]
      case RemoveNode => roles - {change.nodeId}
      case UpdateNode => roles
  }

  function AssignAll(roles: Roles, changes: seq<Change>): Roles {
    if changes == [] then roles
    else Assign(AssignAll(roles, changes[..|changes| - 1]), changes[|changes| - 1])
  }

  lemma {:induction false} AssignAllAppend(roles: Roles, a: seq<Change>, b: seq<Change>)
    ensures AssignAll(roles, a + b) == AssignAll(AssignAll(roles, a), b)
  {
    if b == [] {
      assert a + b == a;
    } else {
      var n := |b| - 1;
      AssignAllAppend(roles, a, b[..n]);
      assert (a + b)[..|a + b| - 1] == a + b[..n];
    }
  }

  /** The change at `i` is the last one that decides what becomes of `id`. */
  ghost predicate Decisive(changes: seq<Change>, id: U64, i: int) {
    && 0 <= i < |changes| && changes[i].nodeId == id && changes[i].changeType != UpdateNode
    && forall j :: i < j < |changes| && changes[j].nodeId == id ==> changes[j].changeType == UpdateNode
  }

  function RoleAt(roles: Roles, id: U64): Option<Role> { if id in roles then Some(roles[id]) else None }

  function RoleAsked(t: ChangeType): Option<Role> {
    match t
    case AddNode => Some(Voter)
    case AddLearnerNode => Some(Learner)
    case _ => None
  }

  /**
   * A change list means: for every id, the last change other than an update wins; without one the
   * id keeps its role, and id zero is never touched.
   */
  lemma {:induction false} LastChangeWins(roles: Roles, changes: seq<Change>, id: U64)
    ensures id == 0 ==> RoleAt(AssignAll(roles, changes), id) == RoleAt(roles, id)
    ensures id != 0 ==> forall i :: Decisive(changes, id, i) ==>
      RoleAt(AssignAll(roles, changes), id) == RoleAsked(changes[i].changeType)
    ensures (forall i :: !Decisive(changes, id, i)) ==>
      RoleAt(AssignAll(roles, changes), id) == RoleAt(roles, id)
  {
    if changes != [] {
      var n := |changes| - 1;
      var front, last := changes[..n], changes[n];
      LastChangeWins(roles, front, id);
      if last.nodeId == id && last.changeType != UpdateNode {
        assert Decisive(changes, id, n);
        forall i | Decisive(changes, id, i) ensures i == n {}
      } else {
        forall i ensures Decisive(changes, id, i) <==> Decisive(front, id, i) {
          if Decisive(changes, id, i) { assert i != n; }
        }
      }
    }
  }

  lemma LayoutOfRoles(c: Conf)
    requires c.Consistent()
    ensures Layout(RolesOf(c), c.outgoing, c.autoLeave) == c
  {
    var l := Those(RolesOf(c), Learner);
    assert Those(RolesOf(c), Voter) == c.incoming;
    assert l == c.learners + c.learnersNext;
    assert l - c.outgoing == c.learners;
    assert l * c.outgoing == c.learnersNext;
  }

  lemma RolesOfLayout(roles: Roles, outgoing: set<U64>, autoLeave: bool)
    ensures Layout(roles, outgoing, autoLeave).Consistent()
    ensures RolesOf(Layout(roles, outgoing, autoLeave)) == roles
    ensures Layout(roles, outgoing, autoLeave).Ids() == roles.Keys + outgoing
  {
    var c := Layout(roles, outgoing, autoLeave);
    assert Those(roles, Voter) + Those(roles, Learner) == roles.Keys;
    assert c.incoming + (c.learners + c.learnersNext) == roles.Keys;
  }
}
