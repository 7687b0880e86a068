/** The employee cursor: `Employee`, `EmployeeGroup` and `EmployeeIterator`
    (index.js lines 482-536). An iterator shares its group's employee array
    and keeps its own position in it: `hasNext` asks whether an employee is
    left, `next` hands it out and moves on (or gives `null` at the end), and
    `list` joins the names of the whole array whatever the position. */
module Iterator {
  import opened Wrappers
  import opened Sequences

  datatype Employee = Employee(name: string, position: string, salary: int)

  /** The separator `list` puts between names. */
  const Separator := ", "

  /** The names of `es`, in order (`employees.map((employee) => employee.name)`). */
  function Names(es: seq<Employee>): (ns: seq<string>)
    ensures |ns| == |es|
    ensures forall i :: 0 <= i < |es| ==> ns[i] == es[i].name
  {
    seq(|es|, i requires 0 <= i < |es| => es[i].name)
  }

  /** Each employee of `es` wrapped as a non-null result of `next`. */
  function Handed(es: seq<Employee>): (r: seq<Option<Employee>>)
    ensures |r| == |es|
    ensures forall i :: 0 <= i < |es| ==> r[i] == Some(es[i])
  {
    seq(|es|, i requires 0 <= i < |es| => Some(es[i]))
  }

  /** An `EmployeeGroup` object: the employee array, grown by `addEmployee`. */
  class EmployeeGroup {
    var employees: seq<Employee>

    constructor ()
      ensures employees == []
    {
      employees := [];
    }

    /** `addEmployee`: push onto the end of the array. */
    method AddEmployee(employee: Employee)
      modifies this
      ensures employees == old(employees) + [employee]
    {
      employees := employees + [employee];
    }
  }

  /** An `EmployeeIterator` object. The iterator's `employees` field is the
      group's own array, not a copy, so it is modelled by the reference to the
      group; `currentIndex` is the iterator's only state. */
  class EmployeeIterator {
    const group: EmployeeGroup
    var currentIndex: nat

    /** The position never passes the end of the array. */
    ghost predicate Valid()
      reads this, group
    {
      currentIndex <= |group.employees|
    }

    /** The employees not yet handed out by `next`. */
    ghost function Remaining(): seq<Employee>
      reads this, group
      requires Valid()
    {
      group.employees[currentIndex..]
    }

    /** `new EmployeeIterator(employeeGroup)`: positioned before the first
        employee, with all of them still to come. */
    constructor (employeeGroup: EmployeeGroup)
      ensures group == employeeGroup && currentIndex == 0
      ensures Valid() && Remaining() == employeeGroup.employees
    {
      group := employeeGroup;
      currentIndex := 0;
    }

    /** `hasNext`: true exactly when some employee is still to come. */
    predicate HasNext()
      reads this, group
      ensures Valid() ==> (HasNext() <==> Remaining() != [])
    {
      currentIndex < |group.employees|
    }

    /** `next`: while an employee is left, return it and move past it;
        afterwards return `null` and stay put. */
    method Next() returns (employee: Option<Employee>)
      requires Valid()
      modifies this
      ensures Valid()
      ensures old(HasNext()) ==>
                employee == Some(old(group.employees[currentIndex])) &&
                currentIndex == old(currentIndex) + 1 &&
                Remaining() == old(Remaining())[1..]
      ensures !old(HasNext()) ==>
                employee == None && currentIndex == old(currentIndex)
      ensures group.employees == old(group.employees)
    {
      if HasNext() {
        employee := Some(group.employees[currentIndex]);
        currentIndex := currentIndex + 1;
      } else {
        employee := None;
      }
    }

    /** `list`: the names of the whole array, in order, with ", " between
        neighbours and nothing after the last. It reads only the array, so it
        does not depend on the position. */
    function List(): (r: string)
      reads group
      ensures Joined(Names(group.employees), Separator, r)
    {
      JoinAll(Names(group.employees), Separator);
      Join(Names(group.employees), Separator)
    }
  }

  /** Calling `next` until it returns `null` (one call more than there are
      employees left) yields the remaining employees in order and then `null`,
      and leaves the iterator exhausted. */
  method NextUntilNull(it: EmployeeIterator) returns (taken: seq<Option<Employee>>)
    requires it.Valid()
    modifies it
    ensures it.Valid() && !it.HasNext()
    ensures taken == Handed(old(it.Remaining())) + [None]
    decreases |it.group.employees| - it.currentIndex
  {
    ghost var before := it.Remaining();
    var employee := it.Next();
    if employee.None? {
      taken := [None];
      assert before == [];
    } else {
      ghost var after := it.Remaining();
      assert after == before[1..] && employee == Some(before[0]);
      var rest := NextUntilNull(it);
      assert rest == Handed(after) + [None];
      taken := [employee] + rest;
      HandedCons(before);
    }
  }

  lemma HandedCons(es: seq<Employee>)
    requires es != []
    ensures Handed(es) == [Some(es[0])] + Handed(es[1..])
  {
  }

  /** Two employees: `hasNext` holds before the first and second calls of
      `next`, which return them in order, and fails before the third, which
      returns `null`. */
  method CursorExhaustion(a: Employee, b: Employee)
  {
    var g := new EmployeeGroup();
    g.AddEmployee(a);
    g.AddEmployee(b);
    var it := new EmployeeIterator(g);
    assert it.HasNext();
    var first := it.Next();
    assert first == Some(a);
    assert it.HasNext();
    var second := it.Next();
    assert second == Some(b);
    assert !it.HasNext();
    var third := it.Next();
    assert third == None;
  }

  /** The listing of two employees is their names with one separator. */
  lemma ListOfTwo(a: Employee, b: Employee)
    ensures Join(Names([a, b]), Separator) == a.name + Separator + b.name
  {
    var ns := Names([a, b]);
    assert ns == [a.name, b.name];
    assert ns[1..] == [b.name];
  }

  /** After one call of `next`, `list` still names every employee, not just
      the remaining ones. */
  method ListAfterNext(a: Employee, b: Employee)
  {
    var g := new EmployeeGroup();
    g.AddEmployee(a);
    g.AddEmployee(b);
    var it := new EmployeeIterator(g);
    assert g.employees == [a, b];
    var listed := it.List();
    assert listed == Join(Names([a, b]), Separator);
    ListOfTwo(a, b);
    assert listed == a.name + Separator + b.name;
    var first := it.Next();
    assert it.List() == listed;
  }
}
