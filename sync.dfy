/** `copyDtoToEntity` of the four services: copy the scalar fields of a transfer object
    onto an entity, clear the entity's relation set, then add one reference per nested
    transfer object, looked up by its id.

    For each entity kind there is a specification function (`EnterpriseFromDto`, ...)
    giving the entity afterwards, and a method with the loop of the source that is proved
    to compute it. The relation update is a full replace: the new set depends on the
    transfer object only, never on what the entity held before. */
module Sync {
  import opened Common
  import opened Models
  import opened Dto

  // ------------------------------------------------------- ids of nested objects

  /** Every nested department object carries an id (`getReferenceById(null)` is rejected). */
  predicate DepartmentIdsPresent(ds: seq<DepartmentDto>)
  {
    forall i :: 0 <= i < |ds| ==> ds[i].id.Some?
  }

  predicate EmployeeIdsPresent(es: seq<EmployeeDto>)
  {
    forall i :: 0 <= i < |es| ==> es[i].id.Some?
  }

  predicate RoleIdsPresent(rs: seq<RoleDto>)
  {
    forall i :: 0 <= i < |rs| ==> rs[i].id.Some?
  }

  /** The ids named by a list of nested department objects. */
  function DepartmentRefIds(ds: seq<DepartmentDto>): set<int>
  {
    set i | 0 <= i < |ds| && ds[i].id.Some? :: ds[i].id.value
  }

  function EmployeeRefIds(es: seq<EmployeeDto>): set<int>
  {
    set i | 0 <= i < |es| && es[i].id.Some? :: es[i].id.value
  }

  function RoleRefIds(rs: seq<RoleDto>): set<int>
  {
    set i | 0 <= i < |rs| && rs[i].id.Some? :: rs[i].id.value
  }

  // ------------------------------------------------------------------ Enterprise

  /** The enterprise after `copyDtoToEntity(dto, e)`. */
  function EnterpriseFromDto(dto: EnterpriseDto, e: Enterprise): Enterprise
  {
    e.(name := dto.name, address := dto.address, phone := dto.phone,
       departments := DepartmentRefIds(dto.departments))
  }

  /** EnterpriseService.copyDtoToEntity. */
  method CopyDtoToEnterprise(dto: EnterpriseDto, e: Enterprise) returns (r: Enterprise)
    requires DepartmentIdsPresent(dto.departments)
    ensures r == EnterpriseFromDto(dto, e)
  {
    r := e.(name := dto.name, address := dto.address, phone := dto.phone);
    var refs: set<int> := {};
    for i := 0 to |dto.departments|
      invariant refs == DepartmentRefIds(dto.departments[..i])
    {
      assert dto.departments[..i + 1] == dto.departments[..i] + [dto.departments[i]];
      refs := refs + {dto.departments[i].id.value};
    }
    assert dto.departments[..|dto.departments|] == dto.departments;
    r := r.(departments := refs);
  }

  /** The copy keeps the identity, takes name, address and phone from the transfer
      object, and the department set becomes exactly the listed ids: a department not
      listed is dropped whatever the enterprise held before, and an empty list clears it. */
  lemma EnterpriseSyncReplaces(dto: EnterpriseDto, e: Enterprise)
    ensures var r := EnterpriseFromDto(dto, e);
      && r.id == e.id && r.name == dto.name && r.address == dto.address
      && r.phone == dto.phone
      && (forall x :: x in r.departments <==>
            exists i :: 0 <= i < |dto.departments| && dto.departments[i].id == Some(x))
      && (dto.departments == [] ==> r.departments == {})
  {
  }

  /** Repeating the same update changes nothing more: the set is not doubled. */
  lemma EnterpriseSyncIdempotent(dto: EnterpriseDto, e: Enterprise)
    ensures EnterpriseFromDto(dto, EnterpriseFromDto(dto, e)) == EnterpriseFromDto(dto, e)
  {
  }

  /** Full replace, not a diff: two enterprises with the same identity end up equal after
      the same copy, whatever they held before. */
  lemma EnterpriseSyncForgetsPrior(dto: EnterpriseDto, e1: Enterprise, e2: Enterprise)
    requires e1.id == e2.id
    ensures EnterpriseFromDto(dto, e1) == EnterpriseFromDto(dto, e2)
  {
  }

  /** Projecting the nested departments and reading their ids back gives the ids of the
      departments projected. */
  lemma ProjectedDepartmentIds(deps: seq<Department>)
    ensures DepartmentIdsPresent(Map(DepartmentDtoOf, deps))
    ensures DepartmentRefIds(Map(DepartmentDtoOf, deps)) == set i | 0 <= i < |deps| :: deps[i].id
  {
  }

  /** Round trip: the detailed projection of an enterprise whose nested list enumerates
      its departments, copied back onto the enterprise, gives the enterprise unchanged. */
  lemma EnterpriseDtoRoundTrip(e: Enterprise, deps: seq<Department>)
    requires forall i :: 0 <= i < |deps| ==> deps[i].id in e.departments
    requires forall k :: k in e.departments ==> exists i :: 0 <= i < |deps| && deps[i].id == k
    ensures EnterpriseFromDto(EnterpriseDtoWithDepartments(e, deps), e) == e
  {
    ProjectedDepartmentIds(deps);
    forall k | k in e.departments ensures k in set i | 0 <= i < |deps| :: deps[i].id {
      var i :| 0 <= i < |deps| && deps[i].id == k;
    }
    assert (set i | 0 <= i < |deps| :: deps[i].id) == e.departments;
  }

  // ------------------------------------------------------------------ Department

  /** The department after `copyDtoToEntity(dto, d)`; the enterprise link is left as it is. */
  function DepartmentFromDto(dto: DepartmentDto, d: Department): Department
  {
    d.(name := dto.name, description := dto.description, phone := dto.phone,
       employees := EmployeeRefIds(dto.employees))
  }

  /** DepartmentService.copyDtoToEntity. */
  method CopyDtoToDepartment(dto: DepartmentDto, d: Department) returns (r: Department)
    requires EmployeeIdsPresent(dto.employees)
    ensures r == DepartmentFromDto(dto, d)
  {
    r := d.(name := dto.name, description := dto.description, phone := dto.phone);
    var refs: set<int> := {};
    for i := 0 to |dto.employees|
      invariant refs == EmployeeRefIds(dto.employees[..i])
    {
      assert dto.employees[..i + 1] == dto.employees[..i] + [dto.employees[i]];
      refs := refs + {dto.employees[i].id.value};
    }
    assert dto.employees[..|dto.employees|] == dto.employees;
    r := r.(employees := refs);
  }

  /** The copy keeps the identity and the enterprise link (even when the transfer object
      names another enterprise), takes name, description and phone from the transfer
      object, and the employee set becomes exactly the listed ids. */
  lemma DepartmentSyncReplaces(dto: DepartmentDto, d: Department)
    ensures var r := DepartmentFromDto(dto, d);
      && r.id == d.id && r.enterprise == d.enterprise
      && r.name == dto.name && r.description == dto.description && r.phone == dto.phone
      && (forall x :: x in r.employees <==>
            exists i :: 0 <= i < |dto.employees| && dto.employees[i].id == Some(x))
      && (dto.employees == [] ==> r.employees == {})
  {
  }

  lemma DepartmentSyncIdempotent(dto: DepartmentDto, d: Department)
    ensures DepartmentFromDto(dto, DepartmentFromDto(dto, d)) == DepartmentFromDto(dto, d)
  {
  }

  /** Full replace: only the identity and the enterprise link survive from before. */
  lemma DepartmentSyncForgetsPrior(dto: DepartmentDto, d1: Department, d2: Department)
    requires d1.id == d2.id && d1.enterprise == d2.enterprise
    ensures DepartmentFromDto(dto, d1) == DepartmentFromDto(dto, d2)
  {
  }

  lemma ProjectedEmployeeIds(emps: seq<Employee>)
    ensures EmployeeIdsPresent(Map(EmployeeDtoOf, emps))
    ensures EmployeeRefIds(Map(EmployeeDtoOf, emps)) == set i | 0 <= i < |emps| :: emps[i].id
  {
  }

  /** Round trip: the detailed projection of a department whose nested list enumerates
      its employees, copied back onto the department, gives the department unchanged. */
  lemma DepartmentDtoRoundTrip(d: Department, emps: seq<Employee>)
    requires forall i :: 0 <= i < |emps| ==> emps[i].id in d.employees
    requires forall k :: k in d.employees ==> exists i :: 0 <= i < |emps| && emps[i].id == k
    ensures DepartmentFromDto(DepartmentDtoWithEmployees(d, emps), d) == d
  {
    ProjectedEmployeeIds(emps);
    forall k | k in d.employees ensures k in set i | 0 <= i < |emps| :: emps[i].id {
      var i :| 0 <= i < |emps| && emps[i].id == k;
    }
    assert (set i | 0 <= i < |emps| :: emps[i].id) == d.employees;
  }

  // -------------------------------------------------------------------- Employee

  /** The employee after `copyDtoToEntity(dto, e)`. */
  function EmployeeFromDto(dto: EmployeeDto, e: Employee): Employee
  {
    e.(firstName := dto.firstName, lastName := dto.lastName, age := dto.age,
       position := dto.position, email := dto.email,
       departments := DepartmentRefIds(dto.departments))
  }

  /** EmployeeService.copyDtoToEntity. */
  method CopyDtoToEmployee(dto: EmployeeDto, e: Employee) returns (r: Employee)
    requires DepartmentIdsPresent(dto.departments)
    ensures r == EmployeeFromDto(dto, e)
  {
    r := e.(firstName := dto.firstName, lastName := dto.lastName, age := dto.age,
            position := dto.position, email := dto.email);
    var refs: set<int> := {};
    for i := 0 to |dto.departments|
      invariant refs == DepartmentRefIds(dto.departments[..i])
    {
      assert dto.departments[..i + 1] == dto.departments[..i] + [dto.departments[i]];
      refs := refs + {dto.departments[i].id.value};
    }
    assert dto.departments[..|dto.departments|] == dto.departments;
    r := r.(departments := refs);
  }

  /** The copy keeps the identity, takes exactly firstName, lastName, age, position and
      email from the transfer object, and the department set becomes the listed ids. */
  lemma EmployeeSyncReplaces(dto: EmployeeDto, e: Employee)
    ensures var r := EmployeeFromDto(dto, e);
      && r.id == e.id && r.firstName == dto.firstName && r.lastName == dto.lastName
      && r.age == dto.age && r.position == dto.position && r.email == dto.email
      && (forall x :: x in r.departments <==>
            exists i :: 0 <= i < |dto.departments| && dto.departments[i].id == Some(x))
      && (dto.departments == [] ==> r.departments == {})
  {
  }

  lemma EmployeeSyncIdempotent(dto: EmployeeDto, e: Employee)
    ensures EmployeeFromDto(dto, EmployeeFromDto(dto, e)) == EmployeeFromDto(dto, e)
  {
  }

  lemma EmployeeSyncForgetsPrior(dto: EmployeeDto, e1: Employee, e2: Employee)
    requires e1.id == e2.id
    ensures EmployeeFromDto(dto, e1) == EmployeeFromDto(dto, e2)
  {
  }

  /** Round trip: the detailed projection of an employee whose nested list enumerates
      its departments, copied back onto the employee, gives the employee unchanged. */
  lemma EmployeeDtoRoundTrip(e: Employee, deps: seq<Department>)
    requires forall i :: 0 <= i < |deps| ==> deps[i].id in e.departments
    requires forall k :: k in e.departments ==> exists i :: 0 <= i < |deps| && deps[i].id == k
    ensures EmployeeFromDto(EmployeeDtoWithDepartments(e, deps), e) == e
  {
    ProjectedDepartmentIds(deps);
    forall k | k in e.departments ensures k in set i | 0 <= i < |deps| :: deps[i].id {
      var i :| 0 <= i < |deps| && deps[i].id == k;
    }
    assert (set i | 0 <= i < |deps| :: deps[i].id) == e.departments;
  }

  // ------------------------------------------------------------------------ User

  /** The user after `copyDtoToEntity(dto, u)`; the password is not touched. */
  function UserFromDto(dto: UserDto, u: User): User
  {
    u.(firstName := dto.firstName, lastName := dto.lastName, email := dto.email,
       roles := RoleRefIds(dto.roles))
  }

  /** UserService.copyDtoToEntity. */
  method CopyDtoToUser(dto: UserDto, u: User) returns (r: User)
    requires RoleIdsPresent(dto.roles)
    ensures r == UserFromDto(dto, u)
  {
    r := u.(firstName := dto.firstName, lastName := dto.lastName, email := dto.email);
    var refs: set<int> := {};
    for i := 0 to |dto.roles|
      invariant refs == RoleRefIds(dto.roles[..i])
    {
      assert dto.roles[..i + 1] == dto.roles[..i] + [dto.roles[i]];
      refs := refs + {dto.roles[i].id.value};
    }
    assert dto.roles[..|dto.roles|] == dto.roles;
    r := r.(roles := refs);
  }

  /** The copy keeps the identity and the password, takes firstName, lastName and email
      from the transfer object, and the role set becomes exactly the listed ids. */
  lemma UserSyncReplaces(dto: UserDto, u: User)
    ensures var r := UserFromDto(dto, u);
      && r.id == u.id && r.password == u.password
      && r.firstName == dto.firstName && r.lastName == dto.lastName && r.email == dto.email
      && (forall x :: x in r.roles <==>
            exists i :: 0 <= i < |dto.roles| && dto.roles[i].id == Some(x))
      && (dto.roles == [] ==> r.roles == {})
  {
  }

  lemma UserSyncIdempotent(dto: UserDto, u: User)
    ensures UserFromDto(dto, UserFromDto(dto, u)) == UserFromDto(dto, u)
  {
  }
}
