/** scraper/helpers/parse_job_data/parse_employees.py */
module EmployeesParser {
  import opened Wrappers
  import opened PyValues
  import opened JobDicts
  import opened FieldSteps

  const EmployeesColumn := "Employees"

  /** `parse_employees(job)`: a non-NA head count loses the word "Employees" and surrounding whitespace. */
  method ParseEmployees(job: JobDict) returns (err: Option<PyError>)
    requires job.Valid()
    modifies job
    ensures job.Valid()
    ensures Applied(CleanField(old(job.items), EmployeesColumn, Str("Employees")), old(job.items), job.items, err)
  {
    err := CleanColumn(job, EmployeesColumn, Str("Employees"));
  }
}
