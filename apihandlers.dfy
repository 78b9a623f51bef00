/**
 * The generated HTTP wrappers of the API generator (5/api_handlers.go):
 * flattening of form values, the per-method parameter validation of
 * MyApi.Create, MyApi.Profile and OtherApi.Create, and the path dispatch
 * of each ServeHTTP. A wrapper either rejects the request with an HTTP
 * status and message, or passes validated parameters on to the business
 * method, which is outside this model.
 */
module ApiHandlers {
  import opened GoStd

  const StatusBadRequest: int := 400
  const StatusForbidden: int := 403
  const StatusNotFound: int := 404
  const StatusNotAcceptable: int := 406
  const StatusInternalServerError: int := 500

  /** A request body read and parsed as a form, or the error that stopped it. */
  datatype Form = Parsed(values: map<string, seq<string>>) | Unreadable(reason: string)

  /** The parts of an HTTP request the wrappers read; header keys are canonical. */
  datatype Request = Request(
    httpMethod: string,
    path: string,
    header: map<string, seq<string>>,
    query: map<string, seq<string>>,
    body: Form)

  /** A wrapper's verdict: the parameters for the business method, or an ApiError. */
  datatype Checked<T> = Pass(value: T) | Reject(status: int, message: string)

  datatype CreateParams = CreateParams(login: string, name: string, status: string, age: int)
  datatype ProfileParams = ProfileParams(login: string)
  datatype OtherCreateParams = OtherCreateParams(username: string, name: string, heroClass: string, level: int)

  // ---------------------------------------------------------------------
  // unpackValues

  /** The first value of every key that has one. */
  function Unpacked(valuesMap: map<string, seq<string>>): map<string, string>
  {
    map k | k in valuesMap && |valuesMap[k]| > 0 :: valuesMap[k][0]
  }

  /** unpackValues: keep the first value of each key, drop keys without values. */
  method UnpackValues(valuesMap: map<string, seq<string>>) returns (unpacked: map<string, string>)
    ensures forall k :: k in unpacked <==> k in valuesMap && |valuesMap[k]| > 0
    ensures forall k :: k in unpacked ==> unpacked[k] == valuesMap[k][0]
    ensures unpacked == Unpacked(valuesMap)
  {
    unpacked := map[];
    var pending := valuesMap.Keys;
    while pending != {}
      invariant pending <= valuesMap.Keys
      invariant forall k :: k in unpacked <==> k in valuesMap && k !in pending && |valuesMap[k]| > 0
      invariant forall k :: k in unpacked ==> unpacked[k] == valuesMap[k][0]
      decreases pending
    {
      var key :| key in pending;
      var value := valuesMap[key];
      if |value| > 0 {
        unpacked := unpacked[key := value[0]];
      }
      pending := pending - {key};
    }
  }

  /** A Go map read: the bound value, or the zero value "". */
  function Lookup(raw: map<string, string>, key: string): string
  {
    if key in raw then raw[key] else ""
  }

  /** Reading an unpacked map gives what url.Values.Get gives, except that presence is kept. */
  lemma UnpackedAgreesWithGet(valuesMap: map<string, seq<string>>, key: string)
    ensures Lookup(Unpacked(valuesMap), key) == FirstOrEmpty(valuesMap, key)
    ensures key in Unpacked(valuesMap) <==> key in valuesMap && |valuesMap[key]| > 0
  {
  }

  // ---------------------------------------------------------------------
  // Shared wrapper steps

  /** The X-Auth header value the wrappers compare. */
  function AuthValue(req: Request): string
  {
    FirstOrEmpty(req.header, "X-Auth")
  }

  /** The raw parameters: from the body for POST, from the URL query otherwise. */
  function RawParams(req: Request): (r: Checked<map<string, string>>)
    ensures req.httpMethod != "POST" ==> r == Pass(Unpacked(req.query))
    ensures req.httpMethod == "POST" && req.body.Parsed? ==> r == Pass(Unpacked(req.body.values))
    ensures req.httpMethod == "POST" && req.body.Unreadable? ==> r == Reject(StatusInternalServerError, req.body.reason)
  {
    if req.httpMethod == "POST" then
      match req.body
      case Parsed(values) => Pass(Unpacked(values))
      case Unreadable(reason) => Reject(StatusInternalServerError, reason)
    else Pass(Unpacked(req.query))
  }

  /** An int parameter: absent reads as 0; present must parse. */
  function IntParam(raw: map<string, string>, key: string): Option<int>
  {
    if key !in raw then Some(0) else Atoi(raw[key])
  }

  /** A defaulted string parameter: absent or empty takes the default. */
  function WithDefault(raw: map<string, string>, key: string, default: string): string
  {
    if Lookup(raw, key) == "" then default else raw[key]
  }

  // ---------------------------------------------------------------------
  // MyApi.Create

  const StatusOptions: seq<string> := ["user", "moderator", "admin"]

  /** The parameter checks of MyApi.wrapperCreate, in field order: age, login, full_name, status. */
  function ValidateCreate(raw: map<string, string>): (r: Checked<CreateParams>)
    ensures r.Pass? <==>
              && IntParam(raw, "age").Some? && 0 <= IntParam(raw, "age").value <= 128
              && "login" in raw && Utf8Len(raw["login"]) >= 10
              && WithDefault(raw, "status", "user") in StatusOptions
    ensures r.Pass? ==>
              r.value == CreateParams(raw["login"], Lookup(raw, "full_name"), WithDefault(raw, "status", "user"),
                                      IntParam(raw, "age").value)
    ensures r.Reject? ==> r.status == StatusBadRequest
    // the first failing check, in source order, decides the message
    ensures IntParam(raw, "age").None? ==> r == Reject(StatusBadRequest, "age must be int")
    ensures IntParam(raw, "age").Some? && IntParam(raw, "age").value < 0 ==>
              r == Reject(StatusBadRequest, "age must be >= 0")
    ensures IntParam(raw, "age").Some? && IntParam(raw, "age").value > 128 ==>
              r == Reject(StatusBadRequest, "age must be <= 128")
    ensures IntParam(raw, "age").Some? && 0 <= IntParam(raw, "age").value <= 128 && "login" !in raw ==>
              r == Reject(StatusBadRequest, "login must be not empty")
    ensures IntParam(raw, "age").Some? && 0 <= IntParam(raw, "age").value <= 128 &&
            "login" in raw && Utf8Len(raw["login"]) < 10 ==>
              r == Reject(StatusBadRequest, "login len must be >= 10")
    ensures IntParam(raw, "age").Some? && 0 <= IntParam(raw, "age").value <= 128 &&
            "login" in raw && Utf8Len(raw["login"]) >= 10 && WithDefault(raw, "status", "user") !in StatusOptions ==>
              r == Reject(StatusBadRequest, "status must be one of [user, moderator, admin]")
  {
    match IntParam(raw, "age")
    case None => Reject(StatusBadRequest, "age must be int")
    case Some(age) =>
      if age < 0 then Reject(StatusBadRequest, "age must be >= 0")
      else if age > 128 then Reject(StatusBadRequest, "age must be <= 128")
      else if "login" !in raw then Reject(StatusBadRequest, "login must be not empty")
      else if Utf8Len(raw["login"]) < 10 then Reject(StatusBadRequest, "login len must be >= 10")
      else
        var name := Lookup(raw, "full_name");
        var status := WithDefault(raw, "status", "user");
        if status !in StatusOptions then Reject(StatusBadRequest, "status must be one of [user, moderator, admin]")
        else Pass(CreateParams(raw["login"], name, status, age))
  }

  /** MyApi.wrapperCreate: POST only, then X-Auth, then the body, then the parameters. */
  function MyApiCreate(req: Request): (r: Checked<CreateParams>)
    ensures req.httpMethod != "POST" ==> r == Reject(StatusNotAcceptable, "bad method")
    ensures req.httpMethod == "POST" && AuthValue(req) != "100500" ==> r == Reject(StatusForbidden, "unauthorized")
    ensures req.httpMethod == "POST" && AuthValue(req) == "100500" && req.body.Unreadable? ==>
              r == Reject(StatusInternalServerError, req.body.reason)
    ensures r.Pass? <==>
              req.httpMethod == "POST" && AuthValue(req) == "100500" && req.body.Parsed? &&
              ValidateCreate(Unpacked(req.body.values)).Pass?
    ensures req.httpMethod == "POST" && AuthValue(req) == "100500" && req.body.Parsed? ==>
              r == ValidateCreate(Unpacked(req.body.values))
  {
    if req.httpMethod != "POST" then Reject(StatusNotAcceptable, "bad method")
    else if AuthValue(req) != "100500" then Reject(StatusForbidden, "unauthorized")
    else
      match RawParams(req)
      case Reject(status, message) => Reject(status, message)
      case Pass(raw) => ValidateCreate(raw)
  }

  // ---------------------------------------------------------------------
  // MyApi.Profile

  /** MyApi.wrapperProfile: any method, no auth, login required. */
  function MyApiProfile(req: Request): (r: Checked<ProfileParams>)
    ensures r.Pass? <==> RawParams(req).Pass? && "login" in RawParams(req).value
    ensures r.Pass? ==> r.value.login == RawParams(req).value["login"]
    ensures RawParams(req).Pass? && "login" !in RawParams(req).value ==>
              r == Reject(StatusBadRequest, "login must be not empty")
    ensures RawParams(req).Reject? ==> r == Reject(StatusInternalServerError, req.body.reason)
  {
    match RawParams(req)
    case Reject(status, message) => Reject(status, message)
    case Pass(raw) =>
      if "login" !in raw then Reject(StatusBadRequest, "login must be not empty")
      else Pass(ProfileParams(raw["login"]))
  }

  // ---------------------------------------------------------------------
  // OtherApi.Create

  const ClassOptions: seq<string> := ["warrior", "sorcerer", "rouge"]

  /** The parameter checks of OtherApi.wrapperCreate, in field order: class, level, account_name, username. */
  function ValidateOtherCreate(raw: map<string, string>): (r: Checked<OtherCreateParams>)
    ensures r.Pass? <==>
              && WithDefault(raw, "class", "warrior") in ClassOptions
              && IntParam(raw, "level").Some? && 1 <= IntParam(raw, "level").value <= 50
              && "username" in raw && Utf8Len(raw["username"]) >= 3
    ensures r.Pass? ==>
              r.value == OtherCreateParams(raw["username"], Lookup(raw, "account_name"),
                                           WithDefault(raw, "class", "warrior"), IntParam(raw, "level").value)
    ensures r.Reject? ==> r.status == StatusBadRequest
    // the first failing check, in source order, decides the message
    ensures WithDefault(raw, "class", "warrior") !in ClassOptions ==>
              r == Reject(StatusBadRequest, "class must be one of [warrior, sorcerer, rouge]")
    ensures WithDefault(raw, "class", "warrior") in ClassOptions && IntParam(raw, "level").None? ==>
              r == Reject(StatusBadRequest, "level must be int")
    ensures WithDefault(raw, "class", "warrior") in ClassOptions &&
            IntParam(raw, "level").Some? && IntParam(raw, "level").value < 1 ==>
              r == Reject(StatusBadRequest, "level must be >= 1")
    ensures WithDefault(raw, "class", "warrior") in ClassOptions &&
            IntParam(raw, "level").Some? && IntParam(raw, "level").value > 50 ==>
              r == Reject(StatusBadRequest, "level must be <= 50")
    ensures WithDefault(raw, "class", "warrior") in ClassOptions &&
            IntParam(raw, "level").Some? && 1 <= IntParam(raw, "level").value <= 50 && "username" !in raw ==>
              r == Reject(StatusBadRequest, "username must be not empty")
    ensures WithDefault(raw, "class", "warrior") in ClassOptions &&
            IntParam(raw, "level").Some? && 1 <= IntParam(raw, "level").value <= 50 &&
            "username" in raw && Utf8Len(raw["username"]) < 3 ==>
              r == Reject(StatusBadRequest, "username len must be >= 3")
  {
    var heroClass := WithDefault(raw, "class", "warrior");
    if heroClass !in ClassOptions then Reject(StatusBadRequest, "class must be one of [warrior, sorcerer, rouge]")
    else
      match IntParam(raw, "level")
      case None => Reject(StatusBadRequest, "level must be int")
      case Some(level) =>
        if level < 1 then Reject(StatusBadRequest, "level must be >= 1")
        else if level > 50 then Reject(StatusBadRequest, "level must be <= 50")
        else
          var name := Lookup(raw, "account_name");
          if "username" !in raw then Reject(StatusBadRequest, "username must be not empty")
          else if Utf8Len(raw["username"]) < 3 then Reject(StatusBadRequest, "username len must be >= 3")
          else Pass(OtherCreateParams(raw["username"], name, heroClass, level))
  }

  /** level is not marked required, but an absent level reads as 0 and fails its minimum. */
  lemma MissingLevelRejected(raw: map<string, string>)
    requires WithDefault(raw, "class", "warrior") in ClassOptions
    requires "level" !in raw
    ensures ValidateOtherCreate(raw) == Reject(StatusBadRequest, "level must be >= 1")
  {
  }

  /** OtherApi.wrapperCreate: POST only, then X-Auth, then the body, then the parameters. */
  function OtherApiCreate(req: Request): (r: Checked<OtherCreateParams>)
    ensures req.httpMethod != "POST" ==> r == Reject(StatusNotAcceptable, "bad method")
    ensures req.httpMethod == "POST" && AuthValue(req) != "100500" ==> r == Reject(StatusForbidden, "unauthorized")
    ensures req.httpMethod == "POST" && AuthValue(req) == "100500" && req.body.Unreadable? ==>
              r == Reject(StatusInternalServerError, req.body.reason)
    ensures r.Pass? <==>
              req.httpMethod == "POST" && AuthValue(req) == "100500" && req.body.Parsed? &&
              ValidateOtherCreate(Unpacked(req.body.values)).Pass?
    ensures req.httpMethod == "POST" && AuthValue(req) == "100500" && req.body.Parsed? ==>
              r == ValidateOtherCreate(Unpacked(req.body.values))
  {
    if req.httpMethod != "POST" then Reject(StatusNotAcceptable, "bad method")
    else if AuthValue(req) != "100500" then Reject(StatusForbidden, "unauthorized")
    else
      match RawParams(req)
      case Reject(status, message) => Reject(status, message)
      case Pass(raw) => ValidateOtherCreate(raw)
  }

  // ---------------------------------------------------------------------
  // ServeHTTP

  /** The business call a MyApi request reaches. */
  datatype MyApiCall = CallCreate(create: CreateParams) | CallProfile(profile: ProfileParams)

  /** MyApi.ServeHTTP: dispatch on the exact path, 404 otherwise. */
  function MyApiServe(req: Request): (r: Checked<MyApiCall>)
    ensures req.path != "/user/create" && req.path != "/user/profile" ==> r == Reject(StatusNotFound, "unknown method")
    ensures req.path == "/user/create" ==>
              (r.Pass? <==> MyApiCreate(req).Pass?) &&
              (r.Pass? ==> r.value == CallCreate(MyApiCreate(req).value)) &&
              (r.Reject? ==> r == Reject(MyApiCreate(req).status, MyApiCreate(req).message))
    ensures req.path == "/user/profile" ==>
              (r.Pass? <==> MyApiProfile(req).Pass?) &&
              (r.Pass? ==> r.value == CallProfile(MyApiProfile(req).value)) &&
              (r.Reject? ==> r == Reject(MyApiProfile(req).status, MyApiProfile(req).message))
  {
    match req.path
    case "/user/create" =>
      (match MyApiCreate(req)
       case Pass(p) => Pass(CallCreate(p))
       case Reject(status, message) => Reject(status, message))
    case "/user/profile" =>
      (match MyApiProfile(req)
       case Pass(p) => Pass(CallProfile(p))
       case Reject(status, message) => Reject(status, message))
    case _ => Reject(StatusNotFound, "unknown method")
  }

  /** OtherApi.ServeHTTP: only /user/create is served. */
  function OtherApiServe(req: Request): (r: Checked<OtherCreateParams>)
    ensures req.path != "/user/create" ==> r == Reject(StatusNotFound, "unknown method")
    ensures req.path == "/user/create" ==> r == OtherApiCreate(req)
  {
    if req.path == "/user/create" then OtherApiCreate(req)
    else Reject(StatusNotFound, "unknown method")
  }

  /** What ServeHTTP writes for a rejection: the status, with the message as "error". */
  datatype Written = Written(status: int, error: string)

  function WriteRejection<T>(c: Checked<T>): (w: Option<Written>)
    ensures c.Reject? <==> w.Some?
    ensures w.Some? ==> w.value.status == c.status && w.value.error == c.message
  {
    match c
    case Reject(status, message) => Some(Written(status, message))
    case Pass(_) => None
  }

  /** The profile endpoint does not check the method or X-Auth; create checks both before reading parameters. */
  lemma CreateGuardsPrecedeParameters(req: Request)
    requires req.path == "/user/create"
    ensures req.httpMethod != "POST" ==> MyApiServe(req) == Reject(StatusNotAcceptable, "bad method")
    ensures req.httpMethod == "POST" && AuthValue(req) != "100500" ==>
              MyApiServe(req) == Reject(StatusForbidden, "unauthorized")
    ensures req.httpMethod != "POST" ==> OtherApiServe(req) == Reject(StatusNotAcceptable, "bad method")
  {
  }

  /** A GET to /user/profile with a login in the query reaches Profile, whatever its headers. */
  lemma ProfileNeedsNoAuth(req: Request)
    requires req.path == "/user/profile" && req.httpMethod == "GET"
    requires "login" in req.query && |req.query["login"]| > 0
    ensures MyApiServe(req) == Pass(CallProfile(ProfileParams(req.query["login"][0])))
  {
  }
}
