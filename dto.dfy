/** The transfer objects and their projections from entities.

    A one-argument constructor (`new EmployeeDTO(employee)`) is shallow: scalar fields
    only, the nested list left empty. A two-argument constructor
    (`new EmployeeDTO(employee, departments)`) is one level deep: one shallow nested
    object per related entity. The Java `Set` handed to a two-argument constructor is
    given here as the sequence in which that set is iterated. */
module Dto {
  import opened Common
  import opened Models

  datatype EmployeeDto = EmployeeDto(
    id: Option<int>, firstName: string, lastName: string, age: int, position: string,
    email: string, departments: seq<DepartmentDto>)

  datatype DepartmentDto = DepartmentDto(
    id: Option<int>, name: string, description: string, phone: string,
    enterpriseId: Option<int>, employees: seq<EmployeeDto>)

  datatype EnterpriseDto = EnterpriseDto(
    id: Option<int>, name: string, address: string, phone: string,
    departments: seq<DepartmentDto>)

  /** The transfer shape of a role, as far as the user service reads it. */
  datatype RoleDto = RoleDto(id: Option<int>, authority: string)

  /** The transfer shape of a user. It has no password field, so a password can never be
      emitted through it. */
  datatype UserDto = UserDto(
    id: Option<int>, firstName: string, lastName: string, email: string, roles: seq<RoleDto>)

  /** The insert shape of a user: the user fields plus the plain-text password. */
  datatype UserMasterDto = UserMasterDto(user: UserDto, password: string)

  /** No further nesting: a department transfer object that carries no employees. */
  predicate ShallowDepartmentDto(d: DepartmentDto)
  {
    d.employees == []
  }

  /** No further nesting: an employee transfer object that carries no departments. */
  predicate ShallowEmployeeDto(e: EmployeeDto)
  {
    e.departments == []
  }

  // ---------------------------------------------------------------- EmployeeDTO

  /** `new EmployeeDTO(id, firstName, lastName, age, position, email)`. */
  function NewEmployeeDto(
    id: Option<int>, firstName: string, lastName: string, age: int, position: string,
    email: string): EmployeeDto
  {
    EmployeeDto(id, firstName, lastName, age, position, email, [])
  }

  /** `new EmployeeDTO(employee)`. */
  function EmployeeDtoOf(e: Employee): EmployeeDto
  {
    EmployeeDto(Some(e.id), e.firstName, e.lastName, e.age, e.position, e.email, [])
  }

  /** `new EmployeeDTO(employee, departments)`: the shallow object, then one shallow
      department object per member of `deps`, in iteration order. */
  function EmployeeDtoWithDepartments(e: Employee, deps: seq<Department>): (r: EmployeeDto)
    ensures r.(departments := []) == EmployeeDtoOf(e)
    ensures |r.departments| == |deps|
    ensures forall i :: 0 <= i < |deps| ==> r.departments[i] == DepartmentDtoOf(deps[i])
    ensures forall d :: d in r.departments ==> ShallowDepartmentDto(d)
  {
    EmployeeDtoOf(e).(departments := Map(DepartmentDtoOf, deps))
  }

  /** `setDepartments(departments)`: the list is replaced as a whole. */
  function SetDepartments(dto: EmployeeDto, departments: seq<DepartmentDto>): EmployeeDto
  {
    dto.(departments := departments)
  }

  /** The field constructor stores the values it is given and an empty department list. */
  lemma NewEmployeeDtoStoresFields(
    id: Option<int>, firstName: string, lastName: string, age: int, position: string,
    email: string)
    ensures var r := NewEmployeeDto(id, firstName, lastName, age, position, email);
      && r.id == id && r.firstName == firstName && r.lastName == lastName && r.age == age
      && r.position == position && r.email == email && ShallowEmployeeDto(r)
  {
  }

  /** The entity constructor copies the six scalar columns unchanged, leaves the
      departments empty, and so agrees with the field constructor applied to them. */
  lemma EmployeeDtoOfCopiesScalars(e: Employee)
    ensures var r := EmployeeDtoOf(e);
      && r.id == Some(e.id) && r.firstName == e.firstName && r.lastName == e.lastName
      && r.age == e.age && r.position == e.position && r.email == e.email
      && ShallowEmployeeDto(r)
      && r == NewEmployeeDto(Some(e.id), e.firstName, e.lastName, e.age, e.position, e.email)
  {
  }

  /** `setDepartments` replaces the list wholesale, leaves every other field alone, and a
      second call overrides the first. The two-argument constructor is exactly the
      one-argument constructor followed by `setDepartments` with the projected list. */
  lemma SetDepartmentsReplaces(dto: EmployeeDto, a: seq<DepartmentDto>, b: seq<DepartmentDto>)
    ensures SetDepartments(dto, a).departments == a
    ensures SetDepartments(dto, a).(departments := dto.departments) == dto
    ensures SetDepartments(SetDepartments(dto, a), b) == SetDepartments(dto, b)
  {
  }

  lemma WithDepartmentsIsSetDepartments(e: Employee, deps: seq<Department>)
    ensures EmployeeDtoWithDepartments(e, deps)
         == SetDepartments(EmployeeDtoOf(e), Map(DepartmentDtoOf, deps))
  {
  }

  // -------------------------------------------------------------- DepartmentDTO

  /** `new DepartmentDTO(id, name, description, phone, enterpriseId)`. */
  function NewDepartmentDto(
    id: Option<int>, name: string, description: string, phone: string,
    enterpriseId: Option<int>): DepartmentDto
  {
    DepartmentDto(id, name, description, phone, enterpriseId, [])
  }

  /** `new DepartmentDTO(department)`; `enterpriseId` is the id of the linked enterprise. */
  function DepartmentDtoOf(d: Department): DepartmentDto
  {
    DepartmentDto(Some(d.id), d.name, d.description, d.phone, d.enterprise, [])
  }

  /** `new DepartmentDTO(department, employees)`: the shallow object, then one shallow
      employee object per member of `emps`, in iteration order. */
  function DepartmentDtoWithEmployees(d: Department, emps: seq<Employee>): (r: DepartmentDto)
    ensures r.(employees := []) == DepartmentDtoOf(d)
    ensures |r.employees| == |emps|
    ensures forall i :: 0 <= i < |emps| ==> r.employees[i] == EmployeeDtoOf(emps[i])
    ensures forall x :: x in r.employees ==> ShallowEmployeeDto(x)
  {
    DepartmentDtoOf(d).(employees := Map(EmployeeDtoOf, emps))
  }

  /** The field constructor stores the five values it is given and no employees. */
  lemma NewDepartmentDtoStoresFields(
    id: Option<int>, name: string, description: string, phone: string,
    enterpriseId: Option<int>)
    ensures var r := NewDepartmentDto(id, name, description, phone, enterpriseId);
      && r.id == id && r.name == name && r.description == description && r.phone == phone
      && r.enterpriseId == enterpriseId && ShallowDepartmentDto(r)
  {
  }

  /** The entity constructor copies id, name, description, phone and the enterprise id,
      and leaves the employees empty. */
  lemma DepartmentDtoOfCopiesScalars(d: Department)
    ensures var r := DepartmentDtoOf(d);
      && r.id == Some(d.id) && r.name == d.name && r.description == d.description
      && r.phone == d.phone && r.enterpriseId == d.enterprise && ShallowDepartmentDto(r)
      && r == NewDepartmentDto(Some(d.id), d.name, d.description, d.phone, d.enterprise)
  {
  }

  // -------------------------------------------------------------- EnterpriseDTO

  /** `new EnterpriseDTO(id, name, address, phone)`. */
  function NewEnterpriseDto(id: Option<int>, name: string, address: string, phone: string)
    : EnterpriseDto
  {
    EnterpriseDto(id, name, address, phone, [])
  }

  /** `new EnterpriseDTO(enterprise)`. */
  function EnterpriseDtoOf(e: Enterprise): EnterpriseDto
  {
    EnterpriseDto(Some(e.id), e.name, e.address, e.phone, [])
  }

  /** `new EnterpriseDTO(enterprise, departments)`: the shallow object, then one shallow
      department object per member of `deps`, in iteration order. */
  function EnterpriseDtoWithDepartments(e: Enterprise, deps: seq<Department>)
    : (r: EnterpriseDto)
    ensures r.(departments := []) == EnterpriseDtoOf(e)
    ensures |r.departments| == |deps|
    ensures forall i :: 0 <= i < |deps| ==> r.departments[i] == DepartmentDtoOf(deps[i])
    ensures forall d :: d in r.departments ==> ShallowDepartmentDto(d)
  {
    EnterpriseDtoOf(e).(departments := Map(DepartmentDtoOf, deps))
  }

  /** The field constructor stores the values it is given and no departments. */
  lemma NewEnterpriseDtoStoresFields(id: Option<int>, name: string, address: string, phone: string)
    ensures var r := NewEnterpriseDto(id, name, address, phone);
      r.id == id && r.name == name && r.address == address && r.phone == phone
      && r.departments == []
  {
  }

  /** The entity constructor copies id, name, address and phone, and leaves the
      departments empty. */
  lemma EnterpriseDtoOfCopiesScalars(e: Enterprise)
    ensures var r := EnterpriseDtoOf(e);
      && r.id == Some(e.id) && r.name == e.name && r.address == e.address
      && r.phone == e.phone && r.departments == []
      && r == NewEnterpriseDto(Some(e.id), e.name, e.address, e.phone)
  {
  }

  // -------------------------------------------------------------------- UserDTO

  /** `new UserDTO(user)`: id, names and email; no password. */
  function UserDtoOf(u: User): UserDto
  {
    UserDto(Some(u.id), u.firstName, u.lastName, u.email, [])
  }
}
