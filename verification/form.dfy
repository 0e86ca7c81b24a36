/** The submitted form as the engine reads it: a multi-valued mapping from field names to strings. */
module Form {
  import opened Wrappers

  /** Each field name with its submitted values, in submission order. */
  type FormData = map<string, seq<string>>

  /** `request.form.get(key)`: the first value submitted under key, if any. */
  function Get(form: FormData, key: string): Option<string>
  {
    if key in form && |form[key]| > 0 then Some(form[key][0]) else None
  }

  /** `request.form.get(key, default)`. */
  function GetOr(form: FormData, key: string, default: string): string
  {
    Get(form, key).GetOr(default)
  }

  /** `request.form.getlist(key)`: every value submitted under key. */
  function GetList(form: FormData, key: string): seq<string>
  {
    if key in form then form[key] else []
  }

  /** Python truthiness of an optional string: present and not empty. */
  predicate Truthy(v: Option<string>)
  {
    v.Some? && v.value != ""
  }
}
