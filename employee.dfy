/** The employee record as the upstream directory returns it. */
module Employees {

  /** Java's `int`: salary and age are 32-bit signed integers. The model never does
      arithmetic on them (only comparisons), so no wrap-around can arise. */
  type Int32 = x: int | -0x8000_0000 <= x < 0x8000_0000

  /** An employee, with the fields of `new Employee(id, name, salary, age, profileImage)`. */
  datatype Employee = Employee(
    id: string,
    name: string,
    salary: Int32,
    age: Int32,
    profileImage: string)
}
