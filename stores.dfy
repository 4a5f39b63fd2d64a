/** The parsed template: a JsonFile holding a list of Stores, and the field names of a Store. */
module Stores {
  import opened Wrappers
  import opened Text

  /** A store record; a field that JSON left out, or set to null, is None. */
  datatype Store = Store(
    template: Option<string>,
    address: Option<string>,
    name: Option<string>,
    logo: Option<string>,
    email: Option<string>)

  /** `new Store()`: every field null. */
  const NewStore := Store(None, None, None, None, None)

  /** The template document: its `stores` list may be null. */
  datatype JsonFile = JsonFile(stores: Option<seq<Store>>)

  /** The names of the five fields, as the column names that select them. */
  const FieldNames: set<string> := {"template", "address", "name", "logo", "email"}

  /** The getter selected by a field name; an unknown name selects nothing. */
  function Field(s: Store, f: string): Option<string>
  {
    if f == "template" then s.template
    else if f == "address" then s.address
    else if f == "name" then s.name
    else if f == "logo" then s.logo
    else if f == "email" then s.email
    else None
  }

  /** A Store is determined by its five fields. */
  lemma StoreByFields(a: Store, b: Store)
    requires forall f :: f in FieldNames ==> Field(a, f) == Field(b, f)
    ensures a == b
  {
    assert Field(a, "template") == Field(b, "template");
    assert Field(a, "address") == Field(b, "address");
    assert Field(a, "name") == Field(b, "name");
    assert Field(a, "logo") == Field(b, "logo");
    assert Field(a, "email") == Field(b, "email");
  }

  /**
   * The switch over a column name that calls one setter: the named field becomes `v`, every
   * other field keeps its value, and an unknown name changes nothing.
   */
  function SetField(s: Store, f: string, v: string): (r: Store)
    ensures forall g :: Field(r, g) == if g == f && f in FieldNames then Some(v) else Field(s, g)
    ensures f !in FieldNames ==> r == s
  {
    if f == "template" then s.(template := Some(v))
    else if f == "address" then s.(address := Some(v))
    else if f == "name" then s.(name := Some(v))
    else if f == "logo" then s.(logo := Some(v))
    else if f == "email" then s.(email := Some(v))
    else s
  }

  /** The columns the spreadsheet must have: one per non-null field of the first store. */
  function ExpectedColumns(first: Store): (r: set<string>)
    ensures r == set f | f in FieldNames && Field(first, f).Some?
  {
    (if first.template.Some? then {"template"} else {})
    + (if first.address.Some? then {"address"} else {})
    + (if first.name.Some? then {"name"} else {})
    + (if first.logo.Some? then {"logo"} else {})
    + (if first.email.Some? then {"email"} else {})
  }

  /** The field names are already lower case, so lower-casing them is the identity. */
  lemma FieldNamesAreLowerCase(f: string)
    requires f in FieldNames
    ensures IsLowerCase(f) && ToLower(f) == f
  {
    LowerCaseIsFixed(f);
  }
}
