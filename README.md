# Enterprise / department / employee / user services

A model of the service layer of a small Spring back end. The back end manages
enterprises, their departments, the employees of those departments, and users with
roles. Each entity kind has a service with `findAll`, `findById`, `insert`, `update` and
`delete`, and a private `copyDtoToEntity`. That method copies a transfer object (DTO)
onto an entity: it sets the scalar fields, clears the entity's relation set, and adds
back one reference per nested DTO. The DTO classes project entities into transfer
objects. A one-argument constructor is shallow. A two-argument constructor nests one
shallow DTO per related entity.

Files:

- `common.dfy`: `Option`, the service errors (`NotFound`, `DatabaseError`), `Result`
  and `Outcome`, and a generic `Map` over sequences (the `forEach`/`stream().map` of
  the source).
- `models.dfy`: the entities as values. Each relation collection is the set of the
  related rows' ids.
- `dto.dfy`: the transfer objects and their constructors as functions.
- `sync.dfy`: `copyDtoToEntity` for each service. A specification function gives the
  entity afterwards. A method with the source's clear-then-add loop is proved to
  compute it. Lemmas cover full replace, idempotence and round trips.
- `repository.dfy`: what the services use from the persistence layer, on values:
  - iterating a set in an unspecified order;
  - looking up rows by id;
  - `deleteById` and its signals;
  - the two ways the services delete.
- `services.dfy`: class `EntityStore`. It has one id-keyed table per entity kind and the
  identity counters. Its methods are the twenty service operations. `Valid()` holds the
  keying and referential-integrity invariant, and every mutating method preserves it.

## Model

| member | source | states |
|---|---|---|
| Dto.NewEmployeeDtoStoresFields | backend/src/main/java/com/example/spring/dto/EmployeeDTO.java:24-31 | the field constructor stores the six values it is given and an empty department list |
| Dto.EmployeeDtoOfCopiesScalars | backend/src/main/java/com/example/spring/dto/EmployeeDTO.java:33-40 | the one-argument constructor copies id, firstName, lastName, age, position and email unchanged, leaves departments empty, and equals the field constructor applied to those columns |
| Dto.EmployeeDtoWithDepartments | backend/src/main/java/com/example/spring/dto/EmployeeDTO.java:42-45 | the two-argument constructor is the shallow DTO plus exactly one nested DTO per given department, in order, each equal to that department's shallow projection and carrying no employees |
| Dto.SetDepartmentsReplaces | backend/src/main/java/com/example/spring/dto/EmployeeDTO.java:99-101 | setDepartments replaces the list wholesale, leaves every other field unchanged, and a second call overrides the first |
| Dto.WithDepartmentsIsSetDepartments | backend/src/main/java/com/example/spring/dto/EmployeeDTO.java:42-45 | the two-argument constructor equals the one-argument constructor followed by setDepartments with the projected list |
| Dto.NewDepartmentDtoStoresFields | backend/src/main/java/com/example/spring/dto/DepartmentDTO.java:24-30 | the field constructor stores the five values it is given and an empty employee list |
| Dto.DepartmentDtoOfCopiesScalars | backend/src/main/java/com/example/spring/dto/DepartmentDTO.java:32-38 | the one-argument constructor copies id, name, description, phone and the linked enterprise's id, and leaves employees empty |
| Dto.DepartmentDtoWithEmployees | backend/src/main/java/com/example/spring/dto/DepartmentDTO.java:40-43 | the two-argument constructor is the shallow DTO plus exactly one nested DTO per given employee, in order, each that employee's shallow projection with no departments |
| Dto.NewEnterpriseDtoStoresFields | backend/src/main/java/com/example/spring/dto/EnterpriseDTO.java:22-27 | the field constructor stores the four values it is given and an empty department list |
| Dto.EnterpriseDtoOfCopiesScalars | backend/src/main/java/com/example/spring/dto/EnterpriseDTO.java:29-34 | the one-argument constructor copies id, name, address and phone, and leaves departments empty |
| Dto.EnterpriseDtoWithDepartments | backend/src/main/java/com/example/spring/dto/EnterpriseDTO.java:36-39 | the two-argument constructor is the shallow DTO plus exactly one nested DTO per given department, in order, each that department's shallow projection with no employees |
| Sync.CopyDtoToEnterprise | backend/src/main/java/com/example/spring/services/EnterpriseService.java:77-86 | the clear-then-add loop yields exactly `EnterpriseFromDto`: the DTO's name, address and phone, and the set of the nested ids |
| Sync.EnterpriseSyncReplaces | backend/src/main/java/com/example/spring/services/EnterpriseService.java:77-86 | after the copy the id is kept, the scalars come from the DTO, an id is in the department set if and only if a nested DTO carries it, and an empty list clears the set |
| Sync.EnterpriseSyncIdempotent | backend/src/main/java/com/example/spring/services/EnterpriseService.java:81-85 | repeating the same copy changes nothing further |
| Sync.EnterpriseSyncForgetsPrior | backend/src/main/java/com/example/spring/services/EnterpriseService.java:81-85 | full replace: two enterprises with the same id are equal after the same copy, whatever they held before |
| Sync.ProjectedDepartmentIds | backend/src/main/java/com/example/spring/dto/EnterpriseDTO.java:36-39 | projected nested departments all carry ids, and those ids are exactly the projected departments' ids |
| Sync.EnterpriseDtoRoundTrip | backend/src/main/java/com/example/spring/services/EnterpriseService.java:77-86 | copying an enterprise's detailed DTO (as findById builds it) back onto the enterprise leaves it unchanged |
| Sync.CopyDtoToDepartment | backend/src/main/java/com/example/spring/services/DepartmentService.java:76-85 | the clear-then-add loop yields exactly `DepartmentFromDto`: the DTO's name, description and phone, and the set of the nested employee ids |
| Sync.DepartmentSyncReplaces | backend/src/main/java/com/example/spring/services/DepartmentService.java:76-85 | the id and the enterprise link are kept even when the DTO names another enterprise; the scalars come from the DTO; an id is an employee if and only if a nested DTO carries it; an empty list clears the set |
| Sync.DepartmentSyncIdempotent | backend/src/main/java/com/example/spring/services/DepartmentService.java:80-84 | repeating the same copy changes nothing further |
| Sync.DepartmentSyncForgetsPrior | backend/src/main/java/com/example/spring/services/DepartmentService.java:80-84 | only the id and the enterprise link survive the copy |
| Sync.ProjectedEmployeeIds | backend/src/main/java/com/example/spring/dto/DepartmentDTO.java:40-43 | projected nested employees all carry ids, and those ids are exactly the projected employees' ids |
| Sync.DepartmentDtoRoundTrip | backend/src/main/java/com/example/spring/services/DepartmentService.java:76-85 | copying a department's detailed DTO back onto it leaves the department unchanged |
| Sync.CopyDtoToEmployee | backend/src/main/java/com/example/spring/services/EmployeeService.java:76-87 | the clear-then-add loop yields exactly `EmployeeFromDto`: the five scalars and the set of nested department ids |
| Sync.EmployeeSyncReplaces | backend/src/main/java/com/example/spring/services/EmployeeService.java:76-87 | the copy keeps the id, takes exactly firstName, lastName, age, position and email from the DTO, and makes the department set exactly the nested ids |
| Sync.EmployeeSyncIdempotent | backend/src/main/java/com/example/spring/services/EmployeeService.java:82-86 | repeating the same copy changes nothing further |
| Sync.EmployeeSyncForgetsPrior | backend/src/main/java/com/example/spring/services/EmployeeService.java:82-86 | only the id survives the copy |
| Sync.EmployeeDtoRoundTrip | backend/src/main/java/com/example/spring/services/EmployeeService.java:76-87 | copying an employee's detailed DTO back onto it leaves the employee unchanged |
| Sync.CopyDtoToUser | backend/src/main/java/com/example/spring/services/UserService.java:81-90 | the clear-then-add loop yields exactly `UserFromDto`: names, email and the set of nested role ids |
| Sync.UserSyncReplaces | backend/src/main/java/com/example/spring/services/UserService.java:81-90 | the copy keeps the id and the password, takes firstName, lastName and email from the DTO, and makes the role set exactly the nested ids |
| Sync.UserSyncIdempotent | backend/src/main/java/com/example/spring/services/UserService.java:85-89 | repeating the same copy changes nothing further |
| Repository.DeleteById | backend/src/main/java/com/example/spring/services/DepartmentService.java:68-73 | deleteById signals an empty result exactly when the id is absent, and an integrity violation exactly when the row is still referenced; only a successful delete removes the row |
| Repository.DeleteAfterLookup | backend/src/main/java/com/example/spring/services/EnterpriseService.java:67-75 | lookup-first delete: NotFound if and only if absent, DatabaseError if and only if present and referenced, Done otherwise; only Done removes the row, and it lowers the count by one |
| Repository.DeleteOnSignal | backend/src/main/java/com/example/spring/services/DepartmentService.java:66-74 | signal-based delete: NotFound if and only if absent, DatabaseError if and only if present and referenced, Done otherwise; only Done removes the row, and it lowers the count by one |
| Repository.DeleteVariantsAgree | backend/src/main/java/com/example/spring/services/DepartmentService.java:66-74 | the signal-based delete and the lookup-first delete give the same outcome and table on every input |
| Services.EntityStore.FindAllEnterprises | backend/src/main/java/com/example/spring/services/EnterpriseService.java:30-35 | one shallow DTO per stored enterprise: as many as stored, distinct ids, each equal to a stored row's projection, and every stored row appears |
| Services.EntityStore.FindEnterpriseById | backend/src/main/java/com/example/spring/services/EnterpriseService.java:37-43 | NotFound if and only if absent; otherwise the enterprise's scalars and one shallow DTO per member of its department set, no more and no fewer |
| Services.EntityStore.InsertEnterprise | backend/src/main/java/com/example/spring/services/EnterpriseService.java:45-52 | stores the copy of the DTO under a fresh id, echoes name, address and phone with an empty department list, changes nothing else, and keeps the store valid |
| Services.EntityStore.UpdateEnterprise | backend/src/main/java/com/example/spring/services/EnterpriseService.java:54-65 | NotFound with nothing saved if and only if absent; otherwise only that enterprise becomes the copy of the DTO onto it, and the answer is its shallow DTO |
| Services.EntityStore.DeleteEnterprise | backend/src/main/java/com/example/spring/services/EnterpriseService.java:67-75 | NotFound when absent, DatabaseError with nothing removed while a department links to it, otherwise removed and the count drops by one |
| Services.EntityStore.FindAllDepartments | backend/src/main/java/com/example/spring/services/DepartmentService.java:31-35 | one shallow DTO per stored department, distinct, each a stored row's projection, and every stored row appears |
| Services.EntityStore.FindDepartmentById | backend/src/main/java/com/example/spring/services/DepartmentService.java:37-42 | NotFound if and only if absent; otherwise the department's scalars and one shallow DTO per member of its employee set |
| Services.EntityStore.InsertDepartment | backend/src/main/java/com/example/spring/services/DepartmentService.java:44-51 | stores the copy of the DTO under a fresh id with the default enterprise link (no id), returns its shallow DTO, changes nothing else |
| Services.EntityStore.UpdateDepartment | backend/src/main/java/com/example/spring/services/DepartmentService.java:53-64 | NotFound with nothing saved if and only if absent; otherwise only that department changes, and its enterprise link stays as it was |
| Services.EntityStore.DeleteDepartment | backend/src/main/java/com/example/spring/services/DepartmentService.java:66-74 | empty-result signal becomes NotFound, an integrity violation (an enterprise or employee still lists it) becomes DatabaseError with nothing removed, otherwise the department is removed |
| Services.EntityStore.FindAllEmployees | backend/src/main/java/com/example/spring/services/EmployeeService.java:29-34 | one shallow DTO per stored employee, distinct, each a stored row's projection, and every stored row appears |
| Services.EntityStore.FindEmployeeById | backend/src/main/java/com/example/spring/services/EmployeeService.java:36-42 | NotFound if and only if absent; otherwise the employee's scalars and one shallow DTO per member of its department set |
| Services.EntityStore.InsertEmployee | backend/src/main/java/com/example/spring/services/EmployeeService.java:44-51 | one save of the DTO's copy under a fresh id; the answer echoes all five scalars, firstName and position included |
| Services.EntityStore.UpdateEmployee | backend/src/main/java/com/example/spring/services/EmployeeService.java:53-64 | NotFound with nothing saved if and only if absent; otherwise the answer carries the same id and the DTO's scalars, and only that employee changes |
| Services.EntityStore.DeleteEmployee | backend/src/main/java/com/example/spring/services/EmployeeService.java:66-74 | NotFound when absent, DatabaseError while a department lists it, otherwise removed and the count drops by one |
| Services.EntityStore.FindAllUsers | backend/src/main/java/com/example/spring/services/UserService.java:33-38 | one DTO per stored user, distinct, each a stored row's projection, and every stored row appears |
| Services.EntityStore.FindUserById | backend/src/main/java/com/example/spring/services/UserService.java:40-46 | NotFound if and only if absent; otherwise the user's projection with that id |
| Services.EntityStore.InsertUser | backend/src/main/java/com/example/spring/services/UserService.java:48-56 | stores the copy of the DTO under a fresh id with password equal to `encode` of the plain password, encoded once; the answer echoes names and email and has no password |
| Services.EntityStore.UpdateUser | backend/src/main/java/com/example/spring/services/UserService.java:58-69 | NotFound with nothing saved if and only if absent; otherwise only that user changes, and its stored password stays as it was |
| Services.EntityStore.DeleteUser | backend/src/main/java/com/example/spring/services/UserService.java:71-79 | NotFound when absent (checked first), DatabaseError with nothing removed while another row still refers to the user, otherwise removed and the count drops by one |

## Left out

- The persistence layer is a map per table. In `update`, `getReferenceById` hands out a
  lazy proxy. The proxy reports a missing row (`EntityNotFoundException`) when its state
  is first touched, which is the first setter call in `copyDtoToEntity`. That happens
  inside the `try` and before any write. The model checks for the row up front and
  returns NotFound with no write, which is the same behaviour.
- Nested DTOs whose id is missing or names no stored row make the source fail. A null
  id fails at once, when `copyDtoToEntity` calls `getReferenceById` with it. An id that
  names no stored row fails later, when the store flushes. `InsertX` and `UpdateX`
  require every nested id to be present and stored instead, so neither failure is
  modelled.
- Every operation is atomic here. A failed operation leaves every table as it was.
  - `findAll`, `findById`, `insert` and `update` carry `@Transactional`.
  - None of the four `delete` methods is annotated.
  - The enterprise, employee and user deletes make two separate store calls, a lookup and
    a `deleteById`, each with its own transaction.
  - The department delete makes one store call, `deleteById`.
  - The model treats each delete as one atomic step anyway. A concurrent change between
    the two calls is not modelled.
- BCrypt: `encode` is a fixed function given to the store's constructor. Its random salt
  is not modelled, so equal passwords encode equally here.
- Entity timestamps (`prePersist`/`preUpdate` reading the clock), controllers,
  resources, URI building and the security configuration are left out.
- The source files of `UserDTO`, `RoleDTO`, `UserMasterDTO`, `User` and `Employee` are
  not part of this model.
  - These types are still modelled (`Dto.UserDto`, `Dto.RoleDto`, `Dto.UserMasterDto`,
    `Models.User`, `Models.Employee`).
  - Their fields are inferred from what the user and employee services read and write.
  - `Dto.UserDtoOf` is taken to be shallow: it has no roles and no password.
  - The repository interfaces are not part of this model either.
- The persistence layer reports an integrity violation when another row's relation
  still names the deleted id.
  - The department delete relies on `deleteById` signalling an empty result for an
    absent id. The services import `jakarta.persistence`. The persistence-library
    generation that goes with that package ignores an absent id in `deleteById` without
    any signal. Against that library, the department delete as written would complete
    normally for an absent id.
  - The model follows the intent of the code: the catch at
    `DepartmentService.java:70-71` and the test at
    `DepartmentServiceIntegrationTests.java:105-112`, which expects NotFound.
    `Repository.DeleteOnSignal` therefore yields NotFound for an absent id.
- Services.EntityStore.DeleteUser: no modelled table names a user. The rows that could
  name one lie outside the model. They are given to the store's constructor as the fixed
  set `userReferences`, and deleting a user in that set yields DatabaseError. That set
  does not change as the modelled tables change.
- Services.EntityStore.DeleteEnterprise: no service ever links a department to an
  enterprise. `InsertDepartment` stores the default link, which names no enterprise, and
  `UpdateDepartment` keeps the link it finds. So in a store built by the constructor and
  the service operations, `EnterpriseReferenced` is always false and this delete never
  yields DatabaseError. The branch is still modelled for a store whose links were set some
  other way.
- Both sides of a relation are separate sets. An employee's departments and a
  department's employees are two independent sets, and so are an enterprise's
  departments and a department's enterprise link. No service keeps the two sides in
  step, and neither does the model.
- `DepartmentDTO.java:37` calls `getEnterpriseId()`, which the department entity does
  not declare; it only has `getEnterprise()`. It is modelled as the id of the linked
  enterprise, an `Option` because the default linked enterprise is unsaved and has no
  id. `Services.EntityStore.InsertDepartment` therefore always stores that default link.
- Null scalar fields are not modelled. Ids are `Option<int>` wherever a DTO may carry
  none.
  - A null string field is the same as an empty string here.
  - The employee's `age` is a nullable `Integer` in the source but an `int` here. A null
    age in a DTO cannot be represented.
  - The null age of a fresh `new Employee()` becomes 0 (`Models.NewEmployee`).
- Ids are unbounded integers. The range of `Long` is not modelled.
- The order in which a set is iterated (`findAll`, the nested lists) is unspecified:
  - `Repository.Elements` picks one;
  - the contracts fix only which elements appear, each once.
- A DTO's list is a value here. The aliasing that `setDepartments` creates by storing
  the caller's list is not modelled.
- The controller's status-code mapping of `NotFound` and `DatabaseError` is not part of
  this model.
