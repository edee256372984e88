/** User records: validated once at construction, then read-only. */
module Users {
  import opened Wrappers
  import opened Errors
  import opened Json
  import opened Fields

  datatype User = User(id: int, name: string, password: string)

  /** The fields map the User constructor validates against. */
  const UserFields: FieldsMap := map[
    "id" := Params(true, None, None),
    "name" := Params(true, Some(StringType), None),
    "password" := Params(true, Some(StringType), None)]

  /** A present id (of any type), and a name and a password that are non-empty strings. */
  predicate WellFormedUserData(data: map<string, Value>)
  {
    && "id" in data
    && "name" in data && data["name"].Str? && |data["name"].s| > 0
    && "password" in data && data["password"].Str? && |data["password"].s| > 0
  }

  /** `checkUserData`: returns true, or throws ModelErrorFields. */
  function CheckUserData(data: map<string, Value>): (r: Result<bool, Error>)
    ensures r == if WellFormedUserData(data) then Ok(true) else Err(ModelErrorFields)
  {
    var invalid := HasRequiredFields(Some(Obj(data)), UserFields);
    assert invalid == PropsInvalid(data, UserFields, Obj(data));
    assert invalid <==>
      KeyInvalid(Lookup(data, "id"), UserFields["id"], Obj(data)) ||
      KeyInvalid(Lookup(data, "name"), UserFields["name"], Obj(data)) ||
      KeyInvalid(Lookup(data, "password"), UserFields["password"], Obj(data));
    if invalid then Err(ModelErrorFields) else Ok(true)
  }

  /** `new User(data)`: the id is typed as a model id, so when present it is a number. */
  function NewUser(data: map<string, Value>): (r: Result<User, Error>)
    requires "id" in data ==> data["id"].Num?
    ensures r.Ok? <==> WellFormedUserData(data)
    ensures r.Err? ==> r.error == ModelErrorFields
    ensures r.Ok? ==> r.value.id == data["id"].n && Str(r.value.name) == data["name"]
                      && Str(r.value.password) == data["password"]
  {
    match CheckUserData(data)
    case Err(e) => Err(e)
    case Ok(_) => Ok(User(data["id"].n, data["name"].s, data["password"].s))
  }

  /** `checkPassword`: strict equality with the stored password string. */
  function CheckPassword(u: User, password: Option<Value>): (r: bool)
    ensures r <==> StrictEquals(password, Some(Str(u.password)))
    ensures r ==> password.Some?
  {
    password == Some(Str(u.password))
  }
}
