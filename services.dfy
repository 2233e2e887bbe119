/** The entity services (EnterpriseService, DepartmentService, EmployeeService,
    UserService) over one store holding a table per entity kind.

    Every operation is one transaction: it either applies all its writes or, when it fails,
    leaves every table as it was. Exceptions become `Result` and `Outcome` values. */
module Services {
  import opened Common
  import opened Models
  import opened Dto
  import opened Sync
  import opened Repository

  class EntityStore {
    var enterprises: map<int, Enterprise>
    var departments: map<int, Department>
    var employees: map<int, Employee>
    var users: map<int, User>
    /** The role table: reference data the services only point at. */
    const roles: map<int, Role>

    /** The identity each table hands out next (IDENTITY generation: increasing, never
        reused, starting at 1). */
    var nextEnterpriseId: int
    var nextDepartmentId: int
    var nextEmployeeId: int
    var nextUserId: int

    /** The password encoder's `encode`. */
    const encode: string -> string

    /** The users that rows outside the modelled tables (the user-role join table seen
        from elsewhere, audit records, ...) still refer to: deleting one of them is an
        integrity violation. */
    const userReferences: set<int>

    /** Every row is stored under its own identity, and every identity lies below the one
        its table hands out next, so a new identity is fresh. */
    ghost predicate Keyed()
      reads this
    {
      && 1 <= nextEnterpriseId && 1 <= nextDepartmentId
      && 1 <= nextEmployeeId && 1 <= nextUserId
      && (forall k :: k in enterprises ==> 1 <= k < nextEnterpriseId && enterprises[k].id == k)
      && (forall k :: k in departments ==> 1 <= k < nextDepartmentId && departments[k].id == k)
      && (forall k :: k in employees ==> 1 <= k < nextEmployeeId && employees[k].id == k)
      && (forall k :: k in users ==> 1 <= k < nextUserId && users[k].id == k)
      && (forall k :: k in roles ==> roles[k].id == k)
    }

    /** Referential integrity: every relation names stored rows only. */
    ghost predicate LinksResolve()
      reads this
    {
      && (forall k :: k in enterprises ==> enterprises[k].departments <= departments.Keys)
      && (forall k :: k in departments ==> departments[k].employees <= employees.Keys)
      && (forall k :: k in departments && departments[k].enterprise.Some? ==>
            departments[k].enterprise.value in enterprises)
      && (forall k :: k in employees ==> employees[k].departments <= departments.Keys)
      && (forall k :: k in users ==> users[k].roles <= roles.Keys)
    }

    ghost predicate Valid()
      reads this
    {
      Keyed() && LinksResolve()
    }

    /** An enterprise is still referenced when a department is linked to it. */
    predicate EnterpriseReferenced(id: int)
      reads this
    {
      exists k :: k in departments && departments[k].enterprise == Some(id)
    }

    /** A department is still referenced when an enterprise or an employee lists it. */
    predicate DepartmentReferenced(id: int)
      reads this
    {
      || (exists k :: k in enterprises && id in enterprises[k].departments)
      || (exists k :: k in employees && id in employees[k].departments)
    }

    /** A user is still referenced when a row outside the modelled tables names it. */
    predicate UserReferenced(id: int)
      reads this
    {
      id in userReferences
    }

    /** An employee is still referenced when a department lists it. */
    predicate EmployeeReferenced(id: int)
      reads this
    {
      exists k :: k in departments && id in departments[k].employees
    }

    /** An empty store over the given role table, password encoder and set of users that
        other rows refer to. */
    constructor (roles: map<int, Role>, encode: string -> string, userReferences: set<int>)
      requires forall k :: k in roles ==> roles[k].id == k
      ensures Valid()
      ensures enterprises == map[] && departments == map[] && employees == map[]
      ensures users == map[] && this.roles == roles && this.encode == encode
      ensures this.userReferences == userReferences
      ensures nextEnterpriseId == 1 && nextDepartmentId == 1
      ensures nextEmployeeId == 1 && nextUserId == 1
    {
      enterprises, departments, employees, users := map[], map[], map[], map[];
      this.roles := roles;
      this.encode := encode;
      this.userReferences := userReferences;
      nextEnterpriseId, nextDepartmentId, nextEmployeeId, nextUserId := 1, 1, 1, 1;
    }

    // ============================================================ EnterpriseService

    /** One shallow projection per stored enterprise, each exactly once. */
    method FindAllEnterprises() returns (r: seq<EnterpriseDto>)
      requires Valid()
      ensures |r| == |enterprises|
      ensures forall i :: 0 <= i < |r| ==>
        && r[i].id.Some? && r[i].id.value in enterprises
        && r[i] == EnterpriseDtoOf(enterprises[r[i].id.value]) && r[i].departments == []
      ensures forall i, j :: 0 <= i < j < |r| ==> r[i].id != r[j].id
      ensures forall k :: k in enterprises ==> EnterpriseDtoOf(enterprises[k]) in r
    {
      var ids := Elements(enterprises.Keys);
      r := Map(EnterpriseDtoOf, Lookup(enterprises, ids));
      forall i | 0 <= i < |r| ensures r[i].id == Some(ids[i]) && ids[i] in enterprises {
        assert ids[i] in ids;
        assert enterprises[ids[i]].id == ids[i];
      }
      forall k | k in enterprises ensures EnterpriseDtoOf(enterprises[k]) in r {
        var i :| 0 <= i < |ids| && ids[i] == k;
        assert r[i] == EnterpriseDtoOf(enterprises[k]);
      }
    }

    /** NotFound for an absent id; otherwise the enterprise's own fields and one shallow
        department projection per member of its department set. */
    method FindEnterpriseById(id: int) returns (r: Result<EnterpriseDto>)
      requires Valid()
      ensures r.Err? <==> id !in enterprises
      ensures r.Err? ==> r.error == NotFound
      ensures r.Ok? ==> r.value.(departments := []) == EnterpriseDtoOf(enterprises[id])
      ensures r.Ok? ==> |r.value.departments| == |enterprises[id].departments|
      ensures r.Ok? ==> forall d :: d in r.value.departments ==>
        && d.id.Some? && d.id.value in enterprises[id].departments
        && d == DepartmentDtoOf(departments[d.id.value]) && ShallowDepartmentDto(d)
      ensures r.Ok? ==> forall k :: k in enterprises[id].departments ==>
        DepartmentDtoOf(departments[k]) in r.value.departments
    {
      if id !in enterprises {
        return Err(NotFound);
      }
      var e := enterprises[id];
      var ids := Elements(e.departments);
      var dto := EnterpriseDtoWithDepartments(e, Lookup(departments, ids));
      forall d | d in dto.departments
        ensures && d.id.Some? && d.id.value in e.departments
                && d == DepartmentDtoOf(departments[d.id.value]) && ShallowDepartmentDto(d)
      {
        var i :| 0 <= i < |dto.departments| && dto.departments[i] == d;
        assert ids[i] in ids;
        assert departments[ids[i]].id == ids[i];
        assert d == DepartmentDtoOf(departments[ids[i]]);
      }
      forall k | k in e.departments ensures DepartmentDtoOf(departments[k]) in dto.departments {
        var i :| 0 <= i < |ids| && ids[i] == k;
        assert dto.departments[i] == DepartmentDtoOf(departments[k]);
      }
      r := Ok(dto);
    }

    /** A new enterprise under a fresh identity, with name, address, phone and department
        set taken from `dto`; the answer is its shallow projection. */
    method InsertEnterprise(dto: EnterpriseDto) returns (r: EnterpriseDto)
      requires Valid()
      requires DepartmentIdsPresent(dto.departments)
      requires DepartmentRefIds(dto.departments) <= departments.Keys
      modifies this
      ensures Valid()
      ensures var id := old(nextEnterpriseId);
        && id > 0 && id !in old(enterprises) && nextEnterpriseId == id + 1
        && enterprises == old(enterprises)[id := EnterpriseFromDto(dto, NewEnterprise(id))]
        && r == EnterpriseDtoOf(enterprises[id])
      ensures r.id.Some? && r.name == dto.name && r.address == dto.address
      ensures r.phone == dto.phone && r.departments == []
      ensures departments == old(departments) && employees == old(employees)
      ensures users == old(users) && nextDepartmentId == old(nextDepartmentId)
      ensures nextEmployeeId == old(nextEmployeeId) && nextUserId == old(nextUserId)
    {
      var id := nextEnterpriseId;
      var e := CopyDtoToEnterprise(dto, NewEnterprise(id));
      enterprises := enterprises[id := e];
      nextEnterpriseId := id + 1;
      r := EnterpriseDtoOf(e);
    }

    /** NotFound, with nothing saved, for an absent id; otherwise only that enterprise
        changes, to the result of copying `dto` onto it, and the answer is its shallow
        projection. */
    method UpdateEnterprise(id: int, dto: EnterpriseDto) returns (r: Result<EnterpriseDto>)
      requires Valid()
      requires id in enterprises ==>
        DepartmentIdsPresent(dto.departments) && DepartmentRefIds(dto.departments) <= departments.Keys
      modifies this
      ensures Valid()
      ensures r.Err? <==> id !in old(enterprises)
      ensures r.Err? ==> r.error == NotFound && enterprises == old(enterprises)
      ensures r.Ok? ==>
        && enterprises == old(enterprises)[id := EnterpriseFromDto(dto, old(enterprises)[id])]
        && r.value == EnterpriseDtoOf(enterprises[id])
      ensures departments == old(departments) && employees == old(employees)
      ensures users == old(users) && nextEnterpriseId == old(nextEnterpriseId)
      ensures nextDepartmentId == old(nextDepartmentId)
      ensures nextEmployeeId == old(nextEmployeeId) && nextUserId == old(nextUserId)
    {
      if id !in enterprises {
        return Err(NotFound);
      }
      var e := CopyDtoToEnterprise(dto, enterprises[id]);
      enterprises := enterprises[id := e];
      r := Ok(EnterpriseDtoOf(e));
    }

    /** NotFound for an absent id (checked first), DatabaseError while a department is
        linked to the enterprise, and otherwise the enterprise is removed. */
    method DeleteEnterprise(id: int) returns (r: Outcome)
      requires Valid()
      modifies this
      ensures Valid()
      ensures r == if id !in old(enterprises) then Failed(NotFound)
                   else if old(EnterpriseReferenced(id)) then Failed(DatabaseError)
                   else Done
      ensures enterprises == if r.Done? then old(enterprises) - {id} else old(enterprises)
      ensures r.Done? ==> |enterprises| == |old(enterprises)| - 1
      ensures departments == old(departments) && employees == old(employees)
      ensures users == old(users) && nextEnterpriseId == old(nextEnterpriseId)
      ensures nextDepartmentId == old(nextDepartmentId)
      ensures nextEmployeeId == old(nextEmployeeId) && nextUserId == old(nextUserId)
    {
      var res := DeleteAfterLookup(enterprises, id, EnterpriseReferenced(id));
      r, enterprises := res.0, res.1;
    }

    // ============================================================ DepartmentService

    /** One shallow projection per stored department, each exactly once. */
    method FindAllDepartments() returns (r: seq<DepartmentDto>)
      requires Valid()
      ensures |r| == |departments|
      ensures forall i :: 0 <= i < |r| ==>
        && r[i].id.Some? && r[i].id.value in departments
        && r[i] == DepartmentDtoOf(departments[r[i].id.value]) && ShallowDepartmentDto(r[i])
      ensures forall i, j :: 0 <= i < j < |r| ==> r[i].id != r[j].id
      ensures forall k :: k in departments ==> DepartmentDtoOf(departments[k]) in r
    {
      var ids := Elements(departments.Keys);
      r := Map(DepartmentDtoOf, Lookup(departments, ids));
      forall i | 0 <= i < |r| ensures r[i].id == Some(ids[i]) && ids[i] in departments {
        assert ids[i] in ids;
        assert departments[ids[i]].id == ids[i];
      }
      forall k | k in departments ensures DepartmentDtoOf(departments[k]) in r {
        var i :| 0 <= i < |ids| && ids[i] == k;
        assert r[i] == DepartmentDtoOf(departments[k]);
      }
    }

    /** NotFound for an absent id; otherwise the department's own fields and one shallow
        employee projection per member of its employee set. */
    method FindDepartmentById(id: int) returns (r: Result<DepartmentDto>)
      requires Valid()
      ensures r.Err? <==> id !in departments
      ensures r.Err? ==> r.error == NotFound
      ensures r.Ok? ==> r.value.(employees := []) == DepartmentDtoOf(departments[id])
      ensures r.Ok? ==> |r.value.employees| == |departments[id].employees|
      ensures r.Ok? ==> forall x :: x in r.value.employees ==>
        && x.id.Some? && x.id.value in departments[id].employees
        && x == EmployeeDtoOf(employees[x.id.value]) && ShallowEmployeeDto(x)
      ensures r.Ok? ==> forall k :: k in departments[id].employees ==>
        EmployeeDtoOf(employees[k]) in r.value.employees
    {
      if id !in departments {
        return Err(NotFound);
      }
      var d := departments[id];
      var ids := Elements(d.employees);
      var dto := DepartmentDtoWithEmployees(d, Lookup(employees, ids));
      forall x | x in dto.employees
        ensures && x.id.Some? && x.id.value in d.employees
                && x == EmployeeDtoOf(employees[x.id.value]) && ShallowEmployeeDto(x)
      {
        var i :| 0 <= i < |dto.employees| && dto.employees[i] == x;
        assert ids[i] in ids;
        assert employees[ids[i]].id == ids[i];
        assert x == EmployeeDtoOf(employees[ids[i]]);
      }
      forall k | k in d.employees ensures EmployeeDtoOf(employees[k]) in dto.employees {
        var i :| 0 <= i < |ids| && ids[i] == k;
        assert dto.employees[i] == EmployeeDtoOf(employees[k]);
      }
      r := Ok(dto);
    }

    /** A new department under a fresh identity, with name, description, phone and
        employee set taken from `dto` and the default (unsaved) enterprise link; the answer
        is its shallow projection. */
    method InsertDepartment(dto: DepartmentDto) returns (r: DepartmentDto)
      requires Valid()
      requires EmployeeIdsPresent(dto.employees)
      requires EmployeeRefIds(dto.employees) <= employees.Keys
      modifies this
      ensures Valid()
      ensures var id := old(nextDepartmentId);
        && id > 0 && id !in old(departments) && nextDepartmentId == id + 1
        && departments == old(departments)[id := DepartmentFromDto(dto, NewDepartment(id))]
        && r == DepartmentDtoOf(departments[id])
      ensures r.id.Some? && r.name == dto.name && r.description == dto.description
      ensures r.phone == dto.phone && r.enterpriseId == None && ShallowDepartmentDto(r)
      ensures enterprises == old(enterprises) && employees == old(employees)
      ensures users == old(users) && nextEnterpriseId == old(nextEnterpriseId)
      ensures nextEmployeeId == old(nextEmployeeId) && nextUserId == old(nextUserId)
    {
      var id := nextDepartmentId;
      var d := CopyDtoToDepartment(dto, NewDepartment(id));
      departments := departments[id := d];
      nextDepartmentId := id + 1;
      r := DepartmentDtoOf(d);
    }

    /** NotFound, with nothing saved, for an absent id; otherwise only that department
        changes, to the result of copying `dto` onto it (its enterprise link included,
        which stays as it was). */
    method UpdateDepartment(id: int, dto: DepartmentDto) returns (r: Result<DepartmentDto>)
      requires Valid()
      requires id in departments ==>
        EmployeeIdsPresent(dto.employees) && EmployeeRefIds(dto.employees) <= employees.Keys
      modifies this
      ensures Valid()
      ensures r.Err? <==> id !in old(departments)
      ensures r.Err? ==> r.error == NotFound && departments == old(departments)
      ensures r.Ok? ==>
        && departments == old(departments)[id := DepartmentFromDto(dto, old(departments)[id])]
        && departments[id].enterprise == old(departments)[id].enterprise
        && r.value == DepartmentDtoOf(departments[id])
      ensures enterprises == old(enterprises) && employees == old(employees)
      ensures users == old(users) && nextEnterpriseId == old(nextEnterpriseId)
      ensures nextDepartmentId == old(nextDepartmentId)
      ensures nextEmployeeId == old(nextEmployeeId) && nextUserId == old(nextUserId)
    {
      if id !in departments {
        return Err(NotFound);
      }
      var d := CopyDtoToDepartment(dto, departments[id]);
      departments := departments[id := d];
      r := Ok(DepartmentDtoOf(d));
    }

    /** `deleteById` straight away: the store's empty-result signal becomes NotFound, an
        integrity violation (an enterprise or employee still lists the department) becomes
        DatabaseError, and otherwise the department is removed. */
    method DeleteDepartment(id: int) returns (r: Outcome)
      requires Valid()
      modifies this
      ensures Valid()
      ensures r == if id !in old(departments) then Failed(NotFound)
                   else if old(DepartmentReferenced(id)) then Failed(DatabaseError)
                   else Done
      ensures departments == if r.Done? then old(departments) - {id} else old(departments)
      ensures r.Done? ==> |departments| == |old(departments)| - 1
      ensures enterprises == old(enterprises) && employees == old(employees)
      ensures users == old(users) && nextEnterpriseId == old(nextEnterpriseId)
      ensures nextDepartmentId == old(nextDepartmentId)
      ensures nextEmployeeId == old(nextEmployeeId) && nextUserId == old(nextUserId)
    {
      var res := DeleteOnSignal(departments, id, DepartmentReferenced(id));
      r, departments := res.0, res.1;
    }

    // ============================================================== EmployeeService

    /** One shallow projection per stored employee, each exactly once. */
    method FindAllEmployees() returns (r: seq<EmployeeDto>)
      requires Valid()
      ensures |r| == |employees|
      ensures forall i :: 0 <= i < |r| ==>
        && r[i].id.Some? && r[i].id.value in employees
        && r[i] == EmployeeDtoOf(employees[r[i].id.value]) && ShallowEmployeeDto(r[i])
      ensures forall i, j :: 0 <= i < j < |r| ==> r[i].id != r[j].id
      ensures forall k :: k in employees ==> EmployeeDtoOf(employees[k]) in r
    {
      var ids := Elements(employees.Keys);
      r := Map(EmployeeDtoOf, Lookup(employees, ids));
      forall i | 0 <= i < |r| ensures r[i].id == Some(ids[i]) && ids[i] in employees {
        assert ids[i] in ids;
        assert employees[ids[i]].id == ids[i];
      }
      forall k | k in employees ensures EmployeeDtoOf(employees[k]) in r {
        var i :| 0 <= i < |ids| && ids[i] == k;
        assert r[i] == EmployeeDtoOf(employees[k]);
      }
    }

    /** NotFound for an absent id; otherwise the employee's own fields and one shallow
        department projection per member of its department set. */
    method FindEmployeeById(id: int) returns (r: Result<EmployeeDto>)
      requires Valid()
      ensures r.Err? <==> id !in employees
      ensures r.Err? ==> r.error == NotFound
      ensures r.Ok? ==> r.value.(departments := []) == EmployeeDtoOf(employees[id])
      ensures r.Ok? ==> |r.value.departments| == |employees[id].departments|
      ensures r.Ok? ==> forall d :: d in r.value.departments ==>
        && d.id.Some? && d.id.value in employees[id].departments
        && d == DepartmentDtoOf(departments[d.id.value]) && ShallowDepartmentDto(d)
      ensures r.Ok? ==> forall k :: k in employees[id].departments ==>
        DepartmentDtoOf(departments[k]) in r.value.departments
    {
      if id !in employees {
        return Err(NotFound);
      }
      var e := employees[id];
      var ids := Elements(e.departments);
      var dto := EmployeeDtoWithDepartments(e, Lookup(departments, ids));
      forall d | d in dto.departments
        ensures && d.id.Some? && d.id.value in e.departments
                && d == DepartmentDtoOf(departments[d.id.value]) && ShallowDepartmentDto(d)
      {
        var i :| 0 <= i < |dto.departments| && dto.departments[i] == d;
        assert ids[i] in ids;
        assert departments[ids[i]].id == ids[i];
        assert d == DepartmentDtoOf(departments[ids[i]]);
      }
      forall k | k in e.departments ensures DepartmentDtoOf(departments[k]) in dto.departments {
        var i :| 0 <= i < |ids| && ids[i] == k;
        assert dto.departments[i] == DepartmentDtoOf(departments[k]);
      }
      r := Ok(dto);
    }

    /** A new employee under a fresh identity, with its five scalar fields and department
        set taken from `dto`, saved once; the answer is its shallow projection. */
    method InsertEmployee(dto: EmployeeDto) returns (r: EmployeeDto)
      requires Valid()
      requires DepartmentIdsPresent(dto.departments)
      requires DepartmentRefIds(dto.departments) <= departments.Keys
      modifies this
      ensures Valid()
      ensures var id := old(nextEmployeeId);
        && id > 0 && id !in old(employees) && nextEmployeeId == id + 1
        && employees == old(employees)[id := EmployeeFromDto(dto, NewEmployee(id))]
        && r == EmployeeDtoOf(employees[id])
      ensures r.id.Some? && r.firstName == dto.firstName && r.lastName == dto.lastName
      ensures r.age == dto.age && r.position == dto.position && r.email == dto.email
      ensures ShallowEmployeeDto(r)
      ensures enterprises == old(enterprises) && departments == old(departments)
      ensures users == old(users) && nextEnterpriseId == old(nextEnterpriseId)
      ensures nextDepartmentId == old(nextDepartmentId) && nextUserId == old(nextUserId)
    {
      var id := nextEmployeeId;
      var e := CopyDtoToEmployee(dto, NewEmployee(id));
      employees := employees[id := e];
      nextEmployeeId := id + 1;
      r := EmployeeDtoOf(e);
    }

    /** NotFound, with nothing saved, for an absent id; otherwise only that employee
        changes, and the answer carries the same id and the scalars of `dto`. */
    method UpdateEmployee(id: int, dto: EmployeeDto) returns (r: Result<EmployeeDto>)
      requires Valid()
      requires id in employees ==>
        DepartmentIdsPresent(dto.departments) && DepartmentRefIds(dto.departments) <= departments.Keys
      modifies this
      ensures Valid()
      ensures r.Err? <==> id !in old(employees)
      ensures r.Err? ==> r.error == NotFound && employees == old(employees)
      ensures r.Ok? ==>
        && employees == old(employees)[id := EmployeeFromDto(dto, old(employees)[id])]
        && r.value == EmployeeDtoOf(employees[id])
        && r.value.id == Some(id) && r.value.firstName == dto.firstName
        && r.value.lastName == dto.lastName && r.value.age == dto.age
        && r.value.position == dto.position && r.value.email == dto.email
      ensures enterprises == old(enterprises) && departments == old(departments)
      ensures users == old(users) && nextEnterpriseId == old(nextEnterpriseId)
      ensures nextDepartmentId == old(nextDepartmentId)
      ensures nextEmployeeId == old(nextEmployeeId) && nextUserId == old(nextUserId)
    {
      if id !in employees {
        return Err(NotFound);
      }
      var e := CopyDtoToEmployee(dto, employees[id]);
      employees := employees[id := e];
      r := Ok(EmployeeDtoOf(e));
    }

    /** NotFound for an absent id (checked first), DatabaseError while a department lists
        the employee, and otherwise the employee is removed and the count drops by one. */
    method DeleteEmployee(id: int) returns (r: Outcome)
      requires Valid()
      modifies this
      ensures Valid()
      ensures r == if id !in old(employees) then Failed(NotFound)
                   else if old(EmployeeReferenced(id)) then Failed(DatabaseError)
                   else Done
      ensures employees == if r.Done? then old(employees) - {id} else old(employees)
      ensures r.Done? ==> |employees| == |old(employees)| - 1
      ensures enterprises == old(enterprises) && departments == old(departments)
      ensures users == old(users) && nextEnterpriseId == old(nextEnterpriseId)
      ensures nextDepartmentId == old(nextDepartmentId)
      ensures nextEmployeeId == old(nextEmployeeId) && nextUserId == old(nextUserId)
    {
      var res := DeleteAfterLookup(employees, id, EmployeeReferenced(id));
      r, employees := res.0, res.1;
    }

    // ================================================================== UserService

    /** One projection per stored user, each exactly once. */
    method FindAllUsers() returns (r: seq<UserDto>)
      requires Valid()
      ensures |r| == |users|
      ensures forall i :: 0 <= i < |r| ==>
        r[i].id.Some? && r[i].id.value in users && r[i] == UserDtoOf(users[r[i].id.value])
      ensures forall i, j :: 0 <= i < j < |r| ==> r[i].id != r[j].id
      ensures forall k :: k in users ==> UserDtoOf(users[k]) in r
    {
      var ids := Elements(users.Keys);
      r := Map(UserDtoOf, Lookup(users, ids));
      forall i | 0 <= i < |r| ensures r[i].id == Some(ids[i]) && ids[i] in users {
        assert ids[i] in ids;
        assert users[ids[i]].id == ids[i];
      }
      forall k | k in users ensures UserDtoOf(users[k]) in r {
        var i :| 0 <= i < |ids| && ids[i] == k;
        assert r[i] == UserDtoOf(users[k]);
      }
    }

    /** NotFound for an absent id; otherwise the user's projection. */
    method FindUserById(id: int) returns (r: Result<UserDto>)
      requires Valid()
      ensures r.Err? <==> id !in users
      ensures r.Err? ==> r.error == NotFound
      ensures r.Ok? ==> r.value == UserDtoOf(users[id]) && r.value.id == Some(id)
    {
      if id !in users {
        return Err(NotFound);
      }
      r := Ok(UserDtoOf(users[id]));
    }

    /** A new user under a fresh identity, with names, email and role set taken from
        `dto` and the password encoded exactly once before the single save. */
    method InsertUser(dto: UserMasterDto) returns (r: UserDto)
      requires Valid()
      requires RoleIdsPresent(dto.user.roles)
      requires RoleRefIds(dto.user.roles) <= roles.Keys
      modifies this
      ensures Valid()
      ensures var id := old(nextUserId);
        && id > 0 && id !in old(users) && nextUserId == id + 1
        && users == old(users)[id := UserFromDto(dto.user, NewUser(id)).(password := encode(dto.password))]
        && users[id].password == encode(dto.password)
        && r == UserDtoOf(users[id])
      ensures r.firstName == dto.user.firstName && r.lastName == dto.user.lastName
      ensures r.email == dto.user.email
      ensures enterprises == old(enterprises) && departments == old(departments)
      ensures employees == old(employees) && nextEnterpriseId == old(nextEnterpriseId)
      ensures nextDepartmentId == old(nextDepartmentId) && nextEmployeeId == old(nextEmployeeId)
    {
      var id := nextUserId;
      var u := CopyDtoToUser(dto.user, NewUser(id));
      u := u.(password := encode(dto.password));
      users := users[id := u];
      nextUserId := id + 1;
      r := UserDtoOf(u);
    }

    /** NotFound, with nothing saved, for an absent id; otherwise only that user changes,
        to the result of copying `dto` onto it, and its stored password stays as it was. */
    method UpdateUser(id: int, dto: UserDto) returns (r: Result<UserDto>)
      requires Valid()
      requires id in users ==> RoleIdsPresent(dto.roles) && RoleRefIds(dto.roles) <= roles.Keys
      modifies this
      ensures Valid()
      ensures r.Err? <==> id !in old(users)
      ensures r.Err? ==> r.error == NotFound && users == old(users)
      ensures r.Ok? ==>
        && users == old(users)[id := UserFromDto(dto, old(users)[id])]
        && users[id].password == old(users)[id].password
        && r.value == UserDtoOf(users[id])
      ensures enterprises == old(enterprises) && departments == old(departments)
      ensures employees == old(employees) && nextEnterpriseId == old(nextEnterpriseId)
      ensures nextDepartmentId == old(nextDepartmentId)
      ensures nextEmployeeId == old(nextEmployeeId) && nextUserId == old(nextUserId)
    {
      if id !in users {
        return Err(NotFound);
      }
      var u := CopyDtoToUser(dto, users[id]);
      users := users[id := u];
      r := Ok(UserDtoOf(u));
    }

    /** NotFound for an absent id (checked first), DatabaseError while another row still
        refers to the user, and otherwise the user is removed and the count drops by one. */
    method DeleteUser(id: int) returns (r: Outcome)
      requires Valid()
      modifies this
      ensures Valid()
      ensures r == if id !in old(users) then Failed(NotFound)
                   else if UserReferenced(id) then Failed(DatabaseError)
                   else Done
      ensures users == if r.Done? then old(users) - {id} else old(users)
      ensures r.Done? ==> |users| == |old(users)| - 1
      ensures enterprises == old(enterprises) && departments == old(departments)
      ensures employees == old(employees) && nextEnterpriseId == old(nextEnterpriseId)
      ensures nextDepartmentId == old(nextDepartmentId)
      ensures nextEmployeeId == old(nextEmployeeId) && nextUserId == old(nextUserId)
    {
      var res := DeleteAfterLookup(users, id, UserReferenced(id));
      r, users := res.0, res.1;
    }
  }
}
