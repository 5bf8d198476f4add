/**
 * The employee service (service/EmployeeService.java) over an in-memory
 * employee repository: a map from generated id to the stored employee
 * object. The employee entity's fields are those the service reads and
 * sets; the salary is a whole number.
 */
module Employees {
  import opened Wrappers
  import opened Text

  /** The value of every field of an employee at one moment. */
  datatype EmployeeState = EmployeeState(id: Option<int>, name: string, email: string, department: string, salary: int)

  class Employee {
    var id: Option<int>
    var name: string
    var email: string
    var department: string
    var salary: int

    function State(): EmployeeState
      reads this
    {
      EmployeeState(id, name, email, department, salary)
    }

    /** A new, not yet stored employee. */
    constructor (name: string, email: string, department: string, salary: int)
      ensures State() == EmployeeState(None, name, email, department, salary)
    {
      this.id := None;
      this.name := name;
      this.email := email;
      this.department := department;
      this.salary := salary;
    }

    method SetName(name: string)
      modifies this
      ensures State() == old(State()).(name := name)
    {
      this.name := name;
    }

    method SetEmail(email: string)
      modifies this
      ensures State() == old(State()).(email := email)
    {
      this.email := email;
    }

    method SetDepartment(department: string)
      modifies this
      ensures State() == old(State()).(department := department)
    {
      this.department := department;
    }

    method SetSalary(salary: int)
      modifies this
      ensures State() == old(State()).(salary := salary)
    {
      this.salary := salary;
    }
  }

  /** The stored employees, by id, as values. */
  type Staff = map<int, EmployeeState>

  /** `existsByEmail` */
  predicate EmailTaken(s: Staff, email: string)
  {
    exists k :: k in s && s[k].email == email
  }

  /** An employee other than `id` already has this email. */
  predicate EmailTakenByOther(s: Staff, id: int, email: string)
  {
    exists k :: k in s && k != id && s[k].email == email
  }

  /** No two stored employees share an email. */
  predicate UniqueEmails(s: Staff)
  {
    forall k, l :: k in s && l in s && k != l ==> s[k].email != s[l].email
  }

  /** What `updateEmployee` makes of a stored employee: everything but the id from the details. */
  function WithDetails(e: EmployeeState, details: EmployeeState): (r: EmployeeState)
    ensures r.id == e.id
    ensures r.name == details.name && r.email == details.email
    ensures r.department == details.department && r.salary == details.salary
  {
    e.(name := details.name, email := details.email, department := details.department, salary := details.salary)
  }

  function NotFound(id: int): string
  {
    "Employee not found with id: " + IntToString(id)
  }

  function EmailExists(email: string): string
  {
    "Employee with email " + email + " already exists"
  }

  /** The update's duplicate check rejects exactly an email another employee holds. */
  lemma ChangedAndTaken(s: Staff, id: int, email: string)
    requires UniqueEmails(s) && id in s
    ensures (s[id].email != email && EmailTaken(s, email)) <==> EmailTakenByOther(s, id, email)
  {
    if s[id].email != email && EmailTaken(s, email) {
      var k :| k in s && s[k].email == email;
      assert k != id;
    }
    if EmailTakenByOther(s, id, email) {
      var k :| k in s && k != id && s[k].email == email;
      assert EmailTaken(s, email);
    }
  }

  /** Adding an employee with a free email keeps emails unique. */
  lemma InsertKeepsUnique(s: Staff, id: int, e: EmployeeState)
    requires UniqueEmails(s) && id !in s && !EmailTaken(s, e.email)
    ensures UniqueEmails(s[id := e])
  {
    var t := s[id := e];
    forall k, l | k in t && l in t && k != l
      ensures t[k].email != t[l].email
    {
      if k != id && l != id {
        assert t[k] == s[k] && t[l] == s[l];
      }
    }
  }

  /** Overwriting an employee with an email no other employee holds keeps emails unique. */
  lemma ReplaceKeepsUnique(s: Staff, id: int, e: EmployeeState)
    requires UniqueEmails(s) && id in s && !EmailTakenByOther(s, id, e.email)
    ensures UniqueEmails(s[id := e])
  {
    var t := s[id := e];
    forall k, l | k in t && l in t && k != l
      ensures t[k].email != t[l].email
    {
      if k != id && l != id {
        assert t[k] == s[k] && t[l] == s[l];
      }
    }
  }

  /** Removing an employee keeps the others' emails unique. */
  lemma RemoveKeepsUnique(s: Staff, id: int)
    requires UniqueEmails(s)
    ensures UniqueEmails(s - {id})
  {
    var t := s - {id};
    forall k, l | k in t && l in t && k != l
      ensures t[k].email != t[l].email
    {
      assert t[k] == s[k] && t[l] == s[l];
    }
  }

  /** Removing a key leaves one key fewer exactly when it was present. */
  lemma RemoveCount<K, V>(m: map<K, V>, id: K)
    ensures |(m - {id}).Keys| == |m.Keys| - (if id in m then 1 else 0)
  {
    if id in m {
      assert m.Keys == (m - {id}).Keys + {id};
    } else {
      assert m - {id} == m;
    }
  }

  /** What the service keeps true: every employee is stored under its own id, below the counter, and emails are unique. */
  predicate Consistent(s: Staff, nextId: int)
  {
    && (forall k :: k in s ==> k < nextId && s[k].id == Some(k))
    && UniqueEmails(s)
  }

  /** `createEmployee`'s insertion keeps the staff consistent: the counter's id is free, and the counter moves on. */
  lemma InsertKeepsConsistent(s: Staff, nextId: int, e: EmployeeState)
    requires Consistent(s, nextId) && !EmailTaken(s, e.email) && e.id == Some(nextId)
    ensures nextId !in s
    ensures Consistent(s[nextId := e], nextId + 1)
  {
    InsertKeepsUnique(s, nextId, e);
  }

  /** Changing an employee's fields other than its id, to an email no other employee holds, keeps the staff consistent. */
  lemma ReplaceKeepsConsistent(s: Staff, nextId: int, id: int, e: EmployeeState)
    requires Consistent(s, nextId) && id in s
    requires !EmailTakenByOther(s, id, e.email) && e.id == s[id].id
    ensures Consistent(s[id := e], nextId)
  {
    ReplaceKeepsUnique(s, id, e);
  }

  /** Removing an employee keeps the staff consistent. */
  lemma RemoveKeepsConsistent(s: Staff, nextId: int, id: int)
    requires Consistent(s, nextId)
    ensures Consistent(s - {id}, nextId)
  {
    RemoveKeepsUnique(s, id);
  }

  class EmployeeService {
    var employees: map<int, Employee>
    var nextId: int

    /** The stored employees' fields. */
    function Snapshot(): Staff
      reads this, employees.Values
    {
      map k | k in employees :: employees[k].State()
    }

    /** Every stored employee carries its own key as id, below the counter; emails are unique. */
    ghost predicate Valid()
      reads this, employees.Values
    {
      Consistent(Snapshot(), nextId)
    }

    /** Distinct ids hold distinct objects: no employee object is stored twice. */
    lemma StoredDistinct()
      requires Valid()
      ensures forall k, l :: k in employees && l in employees && k != l ==> employees[k] != employees[l]
    {
      forall k, l | k in employees && l in employees && k != l
        ensures employees[k] != employees[l]
      {
        assert Snapshot()[k].id == Some(k) && Snapshot()[l].id == Some(l);
      }
    }

    /** When only the employee under `id` changed or was added, the snapshot changed at `id` alone. */
    twostate lemma OnlyOneChanged(id: int)
      requires id in employees && employees == old(employees)[id := employees[id]]
      requires forall k :: k in employees && k != id ==> unchanged(employees[k])
      ensures Snapshot() == old(Snapshot())[id := employees[id].State()]
    {
      forall k | k in employees && k != id
        ensures employees[k].State() == old(employees[k].State())
      {
      }
    }

    /** When the employee under `id` was removed and no other changed, the snapshot lost `id` alone. */
    twostate lemma OnlyOneRemoved(id: int)
      requires employees == old(employees) - {id}
      requires forall k :: k in employees ==> unchanged(employees[k])
      ensures Snapshot() == old(Snapshot()) - {id}
    {
      forall k | k in employees
        ensures employees[k].State() == old(employees[k].State())
      {
      }
    }

    constructor ()
      ensures Valid() && employees == map[] && nextId == 1
    {
      employees := map[];
      nextId := 1;
    }

    /** `employeeExists` */
    function EmployeeExists(id: int): (b: bool)
      reads this
      ensures b <==> id in employees
    {
      id in employees
    }

    /** `getTotalEmployeeCount` */
    function TotalEmployeeCount(): (n: nat)
      reads this
      ensures n == |employees.Keys|
    {
      |employees|
    }

    /**
     * `createEmployee`: rejects a taken email and changes nothing; otherwise
     * stores the employee under a new id.
     */
    method CreateEmployee(employee: Employee) returns (r: Result<Employee, string>)
      requires Valid()
      requires employee.id.None?
      modifies this, employee
      ensures Valid()
      ensures EmailTaken(old(Snapshot()), old(employee.email)) ==>
                && r == Failure(EmailExists(old(employee.email)))
                && employees == old(employees) && nextId == old(nextId) && unchanged(employee)
      ensures !EmailTaken(old(Snapshot()), old(employee.email)) ==>
                && r == Success(employee)
                && employees == old(employees)[old(nextId) := employee] && nextId == old(nextId) + 1
                && Snapshot() == old(Snapshot())[old(nextId) := old(employee.State()).(id := Some(old(nextId)))]
                && EmployeeExists(old(nextId)) && TotalEmployeeCount() == old(TotalEmployeeCount()) + 1
    {
      if EmailTaken(Snapshot(), employee.email) {
        return Failure(EmailExists(employee.email));
      }
      Insert(employee);
      return Success(employee);
    }

    /** The successful part of `createEmployee`: the new employee gets the next id and is stored under it. */
    method Insert(employee: Employee)
      requires Valid()
      requires employee.id.None? && !EmailTaken(Snapshot(), employee.email)
      modifies this, employee
      ensures Valid()
      ensures employees == old(employees)[old(nextId) := employee] && nextId == old(nextId) + 1
      ensures old(nextId) !in old(employees)
      ensures Snapshot() == old(Snapshot())[old(nextId) := old(employee.State()).(id := Some(old(nextId)))]
    {
      ghost var s := Snapshot();
      var id := nextId;
      assert forall k :: k in employees ==> employees[k].State() == s[k] && employees[k] != employee;
      employee.id := Some(id);
      InsertKeepsConsistent(s, id, employee.State());
      employees := employees[id := employee];
      nextId := id + 1;
      OnlyOneChanged(id);
    }

    /**
     * `updateEmployee`: an unknown id and an email held by another employee
     * are errors that change nothing; otherwise the stored employee takes
     * name, email, department and salary from the details.
     */
    method UpdateEmployee(id: int, details: Employee) returns (r: Result<Employee, string>)
      requires Valid()
      modifies employees.Values
      ensures Valid()
      ensures id !in employees ==> r == Failure(NotFound(id)) && Snapshot() == old(Snapshot())
      ensures id in employees && EmailTakenByOther(old(Snapshot()), id, old(details.email)) ==>
                r == Failure(EmailExists(old(details.email))) && Snapshot() == old(Snapshot())
      ensures id in employees && !EmailTakenByOther(old(Snapshot()), id, old(details.email)) ==>
                && r == Success(employees[id])
                && Snapshot() == old(Snapshot())[id := WithDetails(old(Snapshot())[id], old(details.State()))]
    {
      if id !in employees {
        return Failure(NotFound(id));
      }
      var employee := employees[id];
      var s := Snapshot();
      ChangedAndTaken(s, id, details.email);
      if employee.email != details.email && EmailTaken(s, details.email) {
        return Failure(EmailExists(details.email));
      }
      CopyDetails(id, details.State());
      return Success(employee);
    }

    /** The successful part of `updateEmployee`: the four setter calls on the stored employee. */
    method CopyDetails(id: int, d: EmployeeState)
      requires Valid() && id in employees
      requires !EmailTakenByOther(Snapshot(), id, d.email)
      modifies employees[id]
      ensures Valid()
      ensures Snapshot() == old(Snapshot())[id := WithDetails(old(Snapshot())[id], d)]
    {
      var employee := employees[id];
      ghost var s := Snapshot();
      StoredDistinct();
      assert forall k :: k in employees && k != id ==> employees[k] != employee;
      employee.SetName(d.name);
      employee.SetEmail(d.email);
      employee.SetDepartment(d.department);
      employee.SetSalary(d.salary);
      assert employee.State() == WithDetails(s[id], d);
      OnlyOneChanged(id);
      ReplaceKeepsConsistent(s, nextId, id, WithDetails(s[id], d));
    }

    /** `deleteEmployee`: removes the id and nothing else; true exactly when it was stored. */
    method DeleteEmployee(id: int) returns (b: bool)
      requires Valid()
      modifies this
      ensures Valid()
      ensures b <==> id in old(employees)
      ensures employees == old(employees) - {id} && nextId == old(nextId)
      ensures Snapshot() == old(Snapshot()) - {id}
      ensures !EmployeeExists(id)
      ensures TotalEmployeeCount() == old(TotalEmployeeCount()) - (if b then 1 else 0)
    {
      ghost var s := Snapshot();
      RemoveCount(employees, id);
      b := id in employees;
      if b {
        employees := employees - {id};
        OnlyOneRemoved(id);
        RemoveKeepsConsistent(s, nextId, id);
      } else {
        assert s - {id} == s;
        assert employees - {id} == employees;
      }
    }
  }
}
