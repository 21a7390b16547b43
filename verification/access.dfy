/** Roles and the university scope of an authenticated user.

 Two staff groups matter: "upsight_staff" sees and changes everything;
 "university_staff" is scoped to the one university of the UniversityManager row linked
 to the user. A user belongs to groups (ordered by their primary key, as
 `user.groups.first()` reads them) and may have a linked manager row.
 */
module Access {
  import opened Wrappers
  import opened Seqs
  import opened Sorting

  type UniversityId = nat

  const UpsightStaff: string := "upsight_staff"
  const UniversityStaff: string := "university_staff"
  const OrganStaff: string := "organ_staff"

  /** A UniversityManager row as authorization sees it: the university it is scoped to. */
  datatype ManagerLink = ManagerLink(university: UniversityId)

  /** An authenticated user: group names in primary-key order, and its manager row if any. */
  datatype User = User(groups: seq<string>, manager: Option<ManagerLink>)

  predicate InGroup(u: User, g: string) {
    g in u.groups
  }

  /** The gate every board endpoint opens with: a member of either staff group. */
  predicate IsStaff(u: User) {
    InGroup(u, UpsightStaff) || InGroup(u, UniversityStaff)
  }

  /** `get_user_university`: the linked manager's university, for university staff only. */
  function UserUniversity(u: User): (r: Option<UniversityId>)
    ensures r.Some? <==> InGroup(u, UniversityStaff) && u.manager.Some?
    ensures r.Some? ==> r.value == u.manager.value.university
  {
    if InGroup(u, UniversityStaff) then
      match u.manager
      case Some(m) => Some(m.university)
      case None => None
    else None
  }

  /** The rows whose owner is university `uni`. */
  function OwnedBy<R>(rows: seq<R>, owner: R -> Option<UniversityId>, uni: UniversityId): seq<R> {
    Filter(rows, (x: R) => owner(x) == Some(uni))
  }

  /** `filter_by_permissions`: everything for upsight staff (checked first), the caller's
      university's rows for linked university staff, nothing for anyone else. */
  function FilterByPermissions<R>(rows: seq<R>, owner: R -> Option<UniversityId>, u: User): (r: seq<R>)
    ensures InGroup(u, UpsightStaff) ==> r == rows
    ensures !InGroup(u, UpsightStaff) && UserUniversity(u).Some? ==>
              (forall i :: 0 <= i < |r| ==> r[i] in rows && owner(r[i]) == UserUniversity(u)) &&
              (forall i :: 0 <= i < |rows| && owner(rows[i]) == UserUniversity(u) ==> rows[i] in r)
    ensures !InGroup(u, UpsightStaff) && UserUniversity(u).None? ==> r == []
    ensures multiset(r) <= multiset(rows)
  {
    if InGroup(u, UpsightStaff) then rows
    else
      match UserUniversity(u)
      case Some(uni) => OwnedBy(rows, owner, uni)
      case None => []
  }

  /** The scoped list keeps the order of the rows it is taken from. */
  lemma FilterByPermissionsSorted<R>(rows: seq<R>, owner: R -> Option<UniversityId>, u: User, key: R -> int)
    requires SortedDesc(rows, key)
    ensures SortedDesc(FilterByPermissions(rows, owner, u), key)
  {
    if !InGroup(u, UpsightStaff) && UserUniversity(u).Some? {
      FilterSorted(rows, (x: R) => owner(x) == UserUniversity(u), key);
    }
  }

  /** The per-row check of detail, update and delete: university staff must own the row;
      the caller's university is `None` when no manager row is linked. */
  predicate InScope(u: User, owner: Option<UniversityId>) {
    !InGroup(u, UniversityStaff) || UserUniversity(u) == owner
  }
}
