/**
 * The application record and the five status values the UI offers.
 *
 * Neither the create handler nor the dashboard validates `status`: it is
 * stored and compared as a raw string. `Status` names the five values the
 * status selector offers, and `WellFormed` says a record carries one of them.
 */
module Records {
  import opened Wrappers
  import opened Dates

  datatype Status = Applied | Interview | Offered | Rejected | Ignored

  /** The string a status is stored as. */
  function Name(s: Status): string
  {
    match s
    case Applied => "Applied"
    case Interview => "Interview"
    case Offered => "Offered"
    case Rejected => "Rejected"
    case Ignored => "Ignored"
  }

  /** Reads a stored status string back; strings outside the five give `None`. */
  function Parse(text: string): (r: Option<Status>)
    ensures r.Some? ==> Name(r.value) == text
    ensures r.None? ==> forall s: Status :: Name(s) != text
  {
    if text == "Applied" then Some(Applied)
    else if text == "Interview" then Some(Interview)
    else if text == "Offered" then Some(Offered)
    else if text == "Rejected" then Some(Rejected)
    else if text == "Ignored" then Some(Ignored)
    else None
  }

  lemma ParseName(s: Status)
    ensures Parse(Name(s)) == Some(s)
  {
  }

  /** Distinct statuses are stored as distinct strings. */
  lemma NameInjective(s: Status, t: Status)
    ensures Name(s) == Name(t) <==> s == t
  {
  }

  /** A stored application. Optional JSON fields that were absent are `None`. */
  datatype Application = Application(
    id: string,
    company: Option<string>,
    position: Option<string>,
    status: string,
    dateApplied: Timestamp,
    jobUrl: Option<string>,
    salary: Option<string>,
    location: Option<string>,
    notes: Option<string>)

  /** The record's status is one of the five the UI offers. */
  predicate WellFormed(a: Application)
  {
    Parse(a.status).Some?
  }

  /** No two stored records share an id. */
  predicate UniqueIds(apps: seq<Application>)
  {
    Distinct(seq(|apps|, i requires 0 <= i < |apps| => apps[i].id))
  }

  /** No element occurs twice. */
  predicate Distinct<T(==)>(s: seq<T>)
  {
    forall i, j :: 0 <= i < j < |s| ==> s[i] != s[j]
  }

  /** Dropping the head of a distinct sequence keeps it distinct, and the head occurs nowhere else. */
  lemma {:induction false} DistinctTail<T>(s: seq<T>)
    requires |s| > 0 && Distinct(s)
    ensures forall i :: 1 <= i < |s| ==> s[i] != s[0]
    ensures Distinct(s[1..])
  {
    forall i, j | 0 <= i < j < |s| - 1
      ensures s[1..][i] != s[1..][j]
    {
      assert s[i + 1] != s[j + 1];
    }
  }
}
