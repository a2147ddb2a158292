/**
 * The mapping a form hands to the store (`insert_data(file, data)`): column
 * name to submitted value, in the order the form lists them (a Python dict
 * keeps insertion order). Dates and numbers arrive here as opaque text.
 */
module Records {

  datatype Field = Field(column: string, value: string)

  /** A form submission: the dict's items in order (the forms never repeat a key). */
  type Record = seq<Field>

  /** `list(data.keys())`: the record's columns in order. */
  function Keys(d: seq<Field>): seq<string> {
    seq(|d|, i requires 0 <= i < |d| => d[i].column)
  }

  /** The record as a column-to-value map (a later item overrides an earlier one, as in a dict display). */
  function FieldMap(d: seq<Field>): map<string, string> {
    if d == [] then map[] else FieldMap(d[..|d| - 1])[d[|d| - 1].column := d[|d| - 1].value]
  }

  /** Python truthiness of a text field: present and not the empty string. */
  predicate Filled(d: Record, column: string) {
    column in FieldMap(d) && FieldMap(d)[column] != ""
  }

  /** The refusal the daily-task, training and audit forms of both versions show. */
  const FillAllRequired: string := "Please fill all required fields."

  /**
   * The check a form runs before it calls `insert_data`: every listed field
   * filled (`if member and task:`), at least one filled (`if built or
   * revised:`), or none at all (the KPI forms). A refused submission shows
   * `message`.
   */
  datatype Gate =
    | Always
    | AllFilled(columns: seq<string>, message: string)
    | AnyFilled(columns: seq<string>, message: string)

  predicate Admits(g: Gate, d: Record) {
    match g
    case Always => true
    case AllFilled(cs, _) => forall c :: c in cs ==> Filled(d, c)
    case AnyFilled(cs, _) => exists c :: c in cs && Filled(d, c)
  }
}

/** The single shared credential pair of the login screen. */
module Access {

  const Username: string := "omotec"
  const Password: string := "omotec"

  /** The error both versions show after a failed login. */
  const InvalidCredentials: string := "\U{274C} Invalid credentials"

  /** `username == USERNAME and password == PASSWORD`: exact string equality. */
  predicate Authenticates(username: string, password: string) {
    username == Username && password == Password
  }
}
