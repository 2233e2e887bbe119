/** The persisted entities. A relation collection (`Set<Department>`, `Set<Employee>`,
    `Set<Role>`) is the set of the ids of the related rows: the join table seen from the
    entity that owns it. Creation and update timestamps are not modelled. */
module Models {
  import opened Common

  /** An enterprise and the departments it groups (the enterprises_departments table). */
  datatype Enterprise = Enterprise(
    id: int, name: string, address: string, phone: string, departments: set<int>)

  /** A department, its employees (the departments_employees table) and the id of the
      enterprise it is linked to; `None` is the id of the unsaved default enterprise. */
  datatype Department = Department(
    id: int, name: string, description: string, phone: string,
    employees: set<int>, enterprise: Option<int>)

  /** An employee and the departments it belongs to. */
  datatype Employee = Employee(
    id: int, firstName: string, lastName: string, age: int, position: string, email: string,
    departments: set<int>)

  /** A permission label. Roles are reference data: no service creates or changes them. */
  datatype Role = Role(id: int, authority: string)

  /** A user; `password` holds the encoded password, never the plain text. */
  datatype User = User(
    id: int, firstName: string, lastName: string, email: string, password: string,
    roles: set<int>)

  /** `new Enterprise()` once the store has given it the identity `id`. The scalar columns
      start out null (here empty) and are overwritten before the first save. */
  function NewEnterprise(id: int): Enterprise
  {
    Enterprise(id, "", "", "", {})
  }

  /** `new Department()`: its enterprise link is a fresh `new Enterprise()`, whose id is null. */
  function NewDepartment(id: int): Department
  {
    Department(id, "", "", "", {}, None)
  }

  /** `new Employee()` once the store has given it the identity `id`. */
  function NewEmployee(id: int): Employee
  {
    Employee(id, "", "", 0, "", "", {})
  }

  /** `new User()` once the store has given it the identity `id`. */
  function NewUser(id: int): User
  {
    User(id, "", "", "", "", {})
  }
}
