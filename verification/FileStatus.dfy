/**
  The scan statuses and their order (libcore/status.c).
 */
module FileStatus {
  import opened Wrappers

  datatype FileStatus =
    | Undecided | Clean | UnknownType | Invalid | InternalError | Suspicious | WhiteListed | Malware

  // The six statuses that the comparison knows.
  predicate Ordered(s: FileStatus) {
    s != UnknownType && s != Invalid
  }

  function Rank(s: FileStatus): nat {
    match s
    case Undecided => 0
    case Clean => 1
    case InternalError => 2
    case Suspicious => 3
    case WhiteListed => 4
    case Malware => 6
    case _ => 5
  }

  /**
    a6o_file_status_cmp; None is its failing assertion.  It orders the statuses by
    rank.  A status outside the six is above all but Malware as the second argument;
    as the first argument it makes the assertion fail unless it meets itself.
   */
  function Cmp(s1: FileStatus, s2: FileStatus): (r: Option<int>)
    ensures r == None <==> !Ordered(s1) && s1 != s2
    ensures r.Some? ==> (r.value < 0 <==> Rank(s1) < Rank(s2))
    ensures r.Some? ==> (r.value == 0 <==> s1 == s2)
  {
    if s1 == s2 then Some(0)
    else match s1
      case Undecided => Some(-1)
      case Clean => Some(if s2 == Undecided then 1 else -1)
      case InternalError => Some(if s2 == Undecided || s2 == Clean then 1 else -1)
      case Suspicious => Some(if s2 == Undecided || s2 == Clean || s2 == InternalError then 1 else -1)
      case WhiteListed =>
        Some(if s2 == Undecided || s2 == Clean || s2 == InternalError || s2 == Suspicious then 1 else -1)
      case Malware => Some(1)
      case _ => None
  }

  predicate Authoritative(s: FileStatus) {
    s == WhiteListed || s == Malware
  }

  /** The six statuses, the lowest first. */
  const ORDER := [Undecided, Clean, InternalError, Suspicious, WhiteListed, Malware]

  /** The comparison of the six is their order; any other status is above all of them but Malware. */
  lemma CmpIsOrder(i: nat, j: nat, other: FileStatus)
    requires i < 6 && j < 6 && other !in ORDER
    ensures Cmp(ORDER[i], ORDER[j]).Some?
    ensures Cmp(ORDER[i], ORDER[j]).value < 0 <==> i < j
    ensures Cmp(ORDER[i], ORDER[j]).value == 0 <==> i == j
    ensures Cmp(ORDER[i], other).Some? && (Cmp(ORDER[i], other).value < 0 <==> ORDER[i] != Malware)
    ensures Cmp(other, ORDER[i]) == None && (other == UnknownType || other == Invalid)
    ensures Rank(ORDER[i]) < Rank(ORDER[j]) <==> i < j
    ensures Rank(ORDER[i]) < Rank(other) <==> ORDER[i] != Malware
    ensures Authoritative(ORDER[i]) <==> ORDER[i] == WhiteListed || ORDER[i] == Malware
    ensures !Authoritative(other) && !Ordered(other) && Ordered(ORDER[i])
  {
    assert ORDER[0] == Undecided && ORDER[1] == Clean && ORDER[2] == InternalError;
    assert ORDER[3] == Suspicious && ORDER[4] == WhiteListed && ORDER[5] == Malware;
  }

}
