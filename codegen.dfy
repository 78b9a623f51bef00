/**
 * The declaration scan of the wrapper generator (5/handlers_gen/codegen.go):
 * parseStructs turns the `apivalidator:` struct tags of a parameter struct
 * into validator records, parseMethods groups the `apigen:api` annotated
 * methods by receiver type and handler name, and contains is the slice search
 * the templates use. The Go syntax tree is modelled by the few shapes the
 * scan inspects; go/parser, the JSON decoding of the annotation and template
 * rendering are outside the model (the decoding is a parameter).
 */
module Codegen {
  import opened GoStd

  /** The validation rules parsed from one field's tag. */
  datatype Validator = Validator(
    required: bool,
    min: string,
    max: string,
    paramName: string,
    enumOptions: seq<string>,
    def: string,
    typeName: string)

  /** The annotation of one handler, with the validators of its parameter struct. */
  datatype ApiShape = ApiShape(
    url: string,
    auth: bool,
    httpMethod: string,
    paramsName: string,
    params: map<string, Validator>)

  // The parts of the Go syntax tree the scan looks at.

  /** A struct field: its tag literal (nil when untagged), its names and its type expression. */
  datatype Field = Field(tag: Option<string>, names: seq<string>, typeExpr: string)

  datatype TypeExpr = StructType(fields: seq<Field>) | OtherType

  datatype Spec = TypeSpec(name: string, typ: TypeExpr) | OtherSpec

  /** A receiver's type: `*T` or a plain `T`. */
  datatype Receiver = Star(typeName: string) | Plain(typeName: string)

  /** A top-level declaration; recv is None for a plain function, params are the type expressions. */
  datatype Decl =
    | GenDecl(specs: seq<Spec>)
    | FuncDecl(doc: string, name: string, recv: Option<seq<Receiver>>, params: seq<string>)
    | BadDecl

  type Validators = map<string, Validator>
  type ApiMap = map<string, map<string, ApiShape>>

  // ---------------------------------------------------------------------
  // The tag of one field

  const ValidatorPrefix: string := "apivalidator:"

  /** The tag with the first prefix dropped and every quote and backtick removed. */
  function CleanTag(tag: string): string
  {
    RemoveAll(RemoveAll(ReplaceFirst(tag, ValidatorPrefix, ""), '"'), '`')
  }

  function Tokens(tag: string): seq<string>
  {
    Split(CleanTag(tag), ',')
  }

  function EmptyValidator(typeName: string): Validator
  {
    Validator(false, "", "", "", [], "", typeName)
  }

  /** A `key=value` token that sets `key`. */
  predicate Sets(token: string, key: string)
  {
    token != "required" && '=' in token && Split(token, '=')[0] == key
  }

  /** The value of a `key=value` token: what follows the first `=`, up to any second one. */
  function ValueOf(token: string): string
    requires '=' in token
  {
    Split(token, '=')[1]
  }

  /** A token that is neither `required` nor holds `=`: reading its value panics. */
  predicate Malformed(token: string)
  {
    token != "required" && '=' !in token
  }

  /** One token of the tag applied to the record built so far. */
  function ApplyToken(v: Validator, token: string): (r: Outcome<Validator>)
    ensures r.Panic? <==> Malformed(token)
    ensures token == "required" ==> r == Done(v.(required := true))
    ensures r.Done? && token != "required" ==> r.value.required == v.required
    ensures r.Done? ==> r.value.typeName == v.typeName
  {
    if token == "required" then Done(v.(required := true))
    else
      var pair := Split(token, '=');
      if |pair| < 2 then Panic("index out of range")
      else
        var key, value := pair[0], pair[1];
        if key == "enum" then Done(v.(enumOptions := Split(value, '|')))
        else if key == "min" then Done(v.(min := value))
        else if key == "max" then Done(v.(max := value))
        else if key == "paramname" then Done(v.(paramName := value))
        else if key == "default" then Done(v.(def := value))
        else Done(v)
  }

  /** The tokens applied left to right, stopping at the first panic. */
  function ApplyTokens(v: Validator, tokens: seq<string>): Outcome<Validator>
    decreases |tokens|
  {
    if |tokens| == 0 then Done(v)
    else
      match ApplyTokens(v, tokens[..|tokens| - 1])
      case Panic(reason) => Panic(reason)
      case Done(w) => ApplyToken(w, tokens[|tokens| - 1])
  }

  /** Once a prefix of the tokens panics, the whole tag does. */
  lemma {:induction false} ApplyTokensPanicSticks(v: Validator, tokens: seq<string>, k: nat)
    requires k <= |tokens| && ApplyTokens(v, tokens[..k]).Panic?
    ensures ApplyTokens(v, tokens) == ApplyTokens(v, tokens[..k])
    decreases |tokens|
  {
    if k < |tokens| {
      var front := tokens[..|tokens| - 1];
      assert front[..k] == tokens[..k];
      ApplyTokensPanicSticks(v, front, k);
    } else {
      assert tokens[..k] == tokens;
    }
  }

  /** The validator of a tag: none without the prefix, a panic on a malformed token. */
  function TagValidator(tag: string, typeExpr: string): Outcome<Option<Validator>>
  {
    if !Contains(tag, ValidatorPrefix) then Done(None)
    else
      match ApplyTokens(EmptyValidator(typeExpr), Tokens(tag))
      case Panic(reason) => Panic(reason)
      case Done(v) => Done(Some(v))
  }

  /** The validator field a `key=` token sets (enum aside). */
  function Stored(v: Validator, key: string): string
  {
    if key == "min" then v.min
    else if key == "max" then v.max
    else if key == "paramname" then v.paramName
    else if key == "default" then v.def
    else ""
  }

  /** Token i sets key and no later token does. */
  predicate LastSetter(tokens: seq<string>, key: string, i: int)
  {
    0 <= i < |tokens| && Sets(tokens[i], key) && forall j :: i < j < |tokens| ==> !Sets(tokens[j], key)
  }

  /** Some token sets key. */
  predicate SomeSetter(tokens: seq<string>, key: string)
  {
    exists i :: 0 <= i < |tokens| && Sets(tokens[i], key)
  }

  /** Applying the tokens panics exactly when some token is malformed. */
  lemma {:induction false} ApplyTokensPanics(v: Validator, tokens: seq<string>)
    ensures ApplyTokens(v, tokens).Panic? <==> exists i :: 0 <= i < |tokens| && Malformed(tokens[i])
    decreases |tokens|
  {
    if |tokens| > 0 {
      var front := tokens[..|tokens| - 1];
      ApplyTokensPanics(v, front);
      assert forall i :: 0 <= i < |front| ==> front[i] == tokens[i];
    }
  }

  /** Applying the tokens keeps the type, and sets Required exactly when a `required` token occurs. */
  lemma {:induction false} ApplyTokensRequired(v: Validator, tokens: seq<string>)
    ensures ApplyTokens(v, tokens).Done? ==>
              ApplyTokens(v, tokens).value.typeName == v.typeName &&
              (ApplyTokens(v, tokens).value.required <==> v.required || "required" in tokens)
    decreases |tokens|
  {
    if |tokens| > 0 {
      var front := tokens[..|tokens| - 1];
      ApplyTokensRequired(v, front);
      assert tokens == front + [tokens[|tokens| - 1]];
    }
  }

  /** One token changes the keyed field it sets, and no other. */
  lemma ApplyTokenStored(w: Validator, token: string, key: string)
    requires key in {"min", "max", "paramname", "default"}
    requires ApplyToken(w, token).Done?
    ensures Stored(ApplyToken(w, token).value, key) == if Sets(token, key) then ValueOf(token) else Stored(w, key)
    ensures ApplyToken(w, token).value.enumOptions ==
              if Sets(token, "enum") then Split(ValueOf(token), '|') else w.enumOptions
  {
  }

  /** min, max, paramname and default hold the value of their last token. */
  lemma {:induction false} ApplyTokensLastWins(v: Validator, tokens: seq<string>, key: string, i: int)
    requires key in {"min", "max", "paramname", "default"}
    requires ApplyTokens(v, tokens).Done?
    requires LastSetter(tokens, key, i)
    ensures Stored(ApplyTokens(v, tokens).value, key) == ValueOf(tokens[i])
    decreases |tokens|
  {
    var front, last := tokens[..|tokens| - 1], tokens[|tokens| - 1];
    assert ApplyTokens(v, front).Done?;
    var w0 := ApplyTokens(v, front).value;
    assert ApplyTokens(v, tokens) == ApplyToken(w0, last);
    ApplyTokenStored(w0, last, key);
    if i < |tokens| - 1 {
      assert !Sets(last, key);
      assert LastSetter(front, key, i) by {
        assert forall j :: 0 <= j < |front| ==> front[j] == tokens[j];
      }
      ApplyTokensLastWins(v, front, key, i);
    }
  }

  /** The enum holds the split value of the last `enum=` token. */
  lemma {:induction false} ApplyTokensEnum(v: Validator, tokens: seq<string>, i: int)
    requires ApplyTokens(v, tokens).Done?
    requires LastSetter(tokens, "enum", i)
    ensures ApplyTokens(v, tokens).value.enumOptions == Split(ValueOf(tokens[i]), '|')
    decreases |tokens|
  {
    var front, last := tokens[..|tokens| - 1], tokens[|tokens| - 1];
    assert ApplyTokens(v, front).Done?;
    var w0 := ApplyTokens(v, front).value;
    assert ApplyTokens(v, tokens) == ApplyToken(w0, last);
    ApplyTokenStored(w0, last, "min");
    if i < |tokens| - 1 {
      assert !Sets(last, "enum");
      assert LastSetter(front, "enum", i) by {
        assert forall j :: 0 <= j < |front| ==> front[j] == tokens[j];
      }
      ApplyTokensEnum(v, front, i);
    }
  }

  /** A field no token sets keeps its old value. */
  lemma {:induction false} ApplyTokensUnset(v: Validator, tokens: seq<string>, key: string)
    requires ApplyTokens(v, tokens).Done?
    requires !SomeSetter(tokens, key)
    ensures key in {"min", "max", "paramname", "default"} ==> Stored(ApplyTokens(v, tokens).value, key) == Stored(v, key)
    ensures key == "enum" ==> ApplyTokens(v, tokens).value.enumOptions == v.enumOptions
    decreases |tokens|
  {
    if |tokens| > 0 {
      var front, last := tokens[..|tokens| - 1], tokens[|tokens| - 1];
      assert ApplyTokens(v, front).Done?;
      var w0 := ApplyTokens(v, front).value;
      assert ApplyTokens(v, tokens) == ApplyToken(w0, last);
      assert !Sets(last, key);
      assert !SomeSetter(front, key) by {
        assert forall j :: 0 <= j < |front| ==> front[j] == tokens[j];
      }
      ApplyTokensUnset(v, front, key);
      ApplyTokenStored(w0, last, if key in {"min", "max", "paramname", "default"} then key else "min");
    }
  }

  /** A tag without the validator prefix yields nothing; one with it panics exactly on a malformed token. */
  lemma TagValidatorOutcome(tag: string, typeExpr: string)
    ensures !Contains(tag, ValidatorPrefix) ==> TagValidator(tag, typeExpr) == Done(None)
    ensures Contains(tag, ValidatorPrefix) ==>
              (TagValidator(tag, typeExpr).Panic? <==> exists i :: 0 <= i < |Tokens(tag)| && Malformed(Tokens(tag)[i]))
    ensures Contains(tag, ValidatorPrefix) && TagValidator(tag, typeExpr).Done? ==> TagValidator(tag, typeExpr).value.Some?
  {
    if Contains(tag, ValidatorPrefix) {
      ApplyTokensPanics(EmptyValidator(typeExpr), Tokens(tag));
    }
  }

  /** Field by field, what a tag yields: the type, required, and the last value of each keyed setting. */
  lemma TagValidatorFields(tag: string, typeExpr: string, v: Validator)
    requires TagValidator(tag, typeExpr) == Done(Some(v))
    ensures v.typeName == typeExpr
    ensures v.required <==> "required" in Tokens(tag)
    ensures forall key :: key in {"min", "max", "paramname", "default"} && !SomeSetter(Tokens(tag), key) ==> Stored(v, key) == ""
    ensures forall key, i :: key in {"min", "max", "paramname", "default"} && LastSetter(Tokens(tag), key, i) ==>
              Stored(v, key) == ValueOf(Tokens(tag)[i])
  {
    var ts := Tokens(tag);
    var v0 := EmptyValidator(typeExpr);
    assert ApplyTokens(v0, ts) == Done(v);
    ApplyTokensRequired(v0, ts);
    forall key | key in {"min", "max", "paramname", "default"}
      ensures !SomeSetter(ts, key) ==> Stored(v, key) == ""
      ensures forall i :: LastSetter(ts, key, i) ==> Stored(v, key) == ValueOf(ts[i])
    {
      if !SomeSetter(ts, key) {
        ApplyTokensUnset(v0, ts, key);
      }
      forall i | LastSetter(ts, key, i)
        ensures Stored(v, key) == ValueOf(ts[i])
      {
        ApplyTokensLastWins(v0, ts, key, i);
      }
    }
  }

  /** The enum options of a tag: none without an `enum=` token, else the last one's `|`-separated options, in order. */
  lemma TagValidatorEnum(tag: string, typeExpr: string, v: Validator)
    requires TagValidator(tag, typeExpr) == Done(Some(v))
    ensures !SomeSetter(Tokens(tag), "enum") ==> v.enumOptions == []
    ensures forall i :: LastSetter(Tokens(tag), "enum", i) ==> Join(v.enumOptions, "|") == ValueOf(Tokens(tag)[i])
  {
    var ts := Tokens(tag);
    var v0 := EmptyValidator(typeExpr);
    assert ApplyTokens(v0, ts) == Done(v);
    if !SomeSetter(ts, "enum") {
      ApplyTokensUnset(v0, ts, "enum");
    }
    forall i | LastSetter(ts, "enum", i)
      ensures Join(v.enumOptions, "|") == ValueOf(ts[i])
    {
      ApplyTokensEnum(v0, ts, i);
      JoinSplit(ValueOf(ts[i]), '|');
    }
  }

  /** The tag handling of parseStructs for one field's tag: strip, clean, split, apply. */
  method ParseTag(tag: string, typeExpr: string) returns (r: Outcome<Option<Validator>>)
    ensures r == TagValidator(tag, typeExpr)
  {
    if !Contains(tag, ValidatorPrefix) {
      return Done(None);
    }
    var cleaned := ReplaceFirst(tag, ValidatorPrefix, "");
    cleaned := RemoveAll(cleaned, '"');
    cleaned := RemoveAll(cleaned, '`');
    var tags := Split(cleaned, ',');
    var validator := EmptyValidator(typeExpr);
    for i := 0 to |tags|
      invariant ApplyTokens(EmptyValidator(typeExpr), tags[..i]) == Done(validator)
    {
      assert tags[..i + 1][..i] == tags[..i];
      var record := tags[i];
      if record == "required" {
        validator := validator.(required := true);
        continue;
      }
      var pair := Split(record, '=');
      if |pair| < 2 {
        ApplyTokensPanicSticks(EmptyValidator(typeExpr), tags, i + 1);
        return Panic("index out of range");
      }
      var key, value := pair[0], pair[1];
      if key == "enum" {
        validator := validator.(enumOptions := Split(value, '|'));
      } else if key == "min" {
        validator := validator.(min := value);
      } else if key == "max" {
        validator := validator.(max := value);
      } else if key == "paramname" {
        validator := validator.(paramName := value);
      } else if key == "default" {
        validator := validator.(def := value);
      }
    }
    assert tags[..|tags|] == tags;
    r := Done(Some(validator));
  }

  // ---------------------------------------------------------------------
  // parseStructs

  /** One field: a nil tag or a nameless field panics; a validated field is stored under its first name. */
  function FieldStep(vMap: Validators, f: Field): (r: Outcome<Validators>)
    ensures f.tag.None? || |f.names| == 0 ==> r.Panic?
    ensures f.tag.Some? && |f.names| > 0 && !Contains(f.tag.value, ValidatorPrefix) ==> r == Done(vMap)
    ensures r.Done? ==> f.tag.Some? && |f.names| > 0
    ensures r.Done? ==> forall k :: k in vMap ==> k in r.value
    ensures r.Done? ==> forall k :: k in r.value && k !in vMap ==> |f.names| > 0 && k == f.names[0]
    ensures r.Done? && |f.names| > 0 && f.tag.Some? && TagValidator(f.tag.value, f.typeExpr).Done? ==>
              match TagValidator(f.tag.value, f.typeExpr).value
              case None => r.value == vMap
              case Some(v) => r.value == vMap[f.names[0] := v]
  {
    match f.tag
    case None => Panic("nil pointer dereference")
    case Some(tag) =>
      if |f.names| == 0 then Panic("index out of range")
      else
        match TagValidator(tag, f.typeExpr)
        case Panic(reason) => Panic(reason)
        case Done(None) => Done(vMap)
        case Done(Some(v)) => Done(vMap[f.names[0] := v])
  }

  function FieldsFold(vMap: Validators, fields: seq<Field>): Outcome<Validators>
    decreases |fields|
  {
    if |fields| == 0 then Done(vMap)
    else
      match FieldsFold(vMap, fields[..|fields| - 1])
      case Panic(reason) => Panic(reason)
      case Done(m) => FieldStep(m, fields[|fields| - 1])
  }

  lemma {:induction false} FieldsPanicSticks(vMap: Validators, fields: seq<Field>, k: nat)
    requires k <= |fields| && FieldsFold(vMap, fields[..k]).Panic?
    ensures FieldsFold(vMap, fields) == FieldsFold(vMap, fields[..k])
    decreases |fields|
  {
    if k < |fields| {
      var front := fields[..|fields| - 1];
      assert front[..k] == fields[..k];
      FieldsPanicSticks(vMap, front, k);
    } else {
      assert fields[..k] == fields;
    }
  }

  /** Only the struct type named paramName is read. */
  function SpecStep(vMap: Validators, spec: Spec, paramName: string): Outcome<Validators>
  {
    if spec.TypeSpec? && spec.name == paramName && spec.typ.StructType? then FieldsFold(vMap, spec.typ.fields)
    else Done(vMap)
  }

  function SpecsFold(vMap: Validators, specs: seq<Spec>, paramName: string): Outcome<Validators>
    decreases |specs|
  {
    if |specs| == 0 then Done(vMap)
    else
      match SpecsFold(vMap, specs[..|specs| - 1], paramName)
      case Panic(reason) => Panic(reason)
      case Done(m) => SpecStep(m, specs[|specs| - 1], paramName)
  }

  lemma {:induction false} SpecsPanicSticks(vMap: Validators, specs: seq<Spec>, paramName: string, k: nat)
    requires k <= |specs| && SpecsFold(vMap, specs[..k], paramName).Panic?
    ensures SpecsFold(vMap, specs, paramName) == SpecsFold(vMap, specs[..k], paramName)
    decreases |specs|
  {
    if k < |specs| {
      var front := specs[..|specs| - 1];
      assert front[..k] == specs[..k];
      SpecsPanicSticks(vMap, front, paramName, k);
    } else {
      assert specs[..k] == specs;
    }
  }

  function DeclStep(vMap: Validators, d: Decl, paramName: string): Outcome<Validators>
  {
    if d.GenDecl? then SpecsFold(vMap, d.specs, paramName) else Done(vMap)
  }

  /** What parseStructs returns for these declarations, scanned in order. */
  function StructValidators(vMap: Validators, decls: seq<Decl>, paramName: string): Outcome<Validators>
    decreases |decls|
  {
    if |decls| == 0 then Done(vMap)
    else
      match StructValidators(vMap, decls[..|decls| - 1], paramName)
      case Panic(reason) => Panic(reason)
      case Done(m) => DeclStep(m, decls[|decls| - 1], paramName)
  }

  lemma {:induction false} DeclsPanicSticks(vMap: Validators, decls: seq<Decl>, paramName: string, k: nat)
    requires k <= |decls| && StructValidators(vMap, decls[..k], paramName).Panic?
    ensures StructValidators(vMap, decls, paramName) == StructValidators(vMap, decls[..k], paramName)
    decreases |decls|
  {
    if k < |decls| {
      var front := decls[..|decls| - 1];
      assert front[..k] == decls[..k];
      DeclsPanicSticks(vMap, front, paramName, k);
    } else {
      assert decls[..k] == decls;
    }
  }

  /** Types other than paramName contribute nothing. */
  lemma {:induction false} OtherStructsIgnored(vMap: Validators, specs: seq<Spec>, paramName: string)
    requires forall i :: 0 <= i < |specs| ==> !(specs[i].TypeSpec? && specs[i].name == paramName)
    ensures SpecsFold(vMap, specs, paramName) == Done(vMap)
    decreases |specs|
  {
    if |specs| > 0 {
      OtherStructsIgnored(vMap, specs[..|specs| - 1], paramName);
    }
  }

  method ParseFields(vMap: Validators, fields: seq<Field>) returns (r: Outcome<Validators>)
    ensures r == FieldsFold(vMap, fields)
  {
    var m := vMap;
    for i := 0 to |fields|
      invariant FieldsFold(vMap, fields[..i]) == Done(m)
    {
      assert fields[..i + 1][..i] == fields[..i];
      var field := fields[i];
      if field.tag.None? {
        FieldsPanicSticks(vMap, fields, i + 1);
        return Panic("nil pointer dereference");
      }
      var tag := field.tag.value;
      if |field.names| == 0 {
        FieldsPanicSticks(vMap, fields, i + 1);
        return Panic("index out of range");
      }
      var fieldName := field.names[0];
      var parsed := ParseTag(tag, field.typeExpr);
      match parsed {
        case Panic(reason) =>
          FieldsPanicSticks(vMap, fields, i + 1);
          return Panic(reason);
        case Done(None) =>
        case Done(Some(validator)) =>
          m := m[fieldName := validator];
      }
    }
    assert fields[..|fields|] == fields;
    r := Done(m);
  }

  /** parseStructs: the validators of the struct named paramName among decls. */
  method ParseStructs(decls: seq<Decl>, paramName: string) returns (r: Outcome<Validators>)
    ensures r == StructValidators(map[], decls, paramName)
  {
    var vMap: Validators := map[];
    for i := 0 to |decls|
      invariant StructValidators(map[], decls[..i], paramName) == Done(vMap)
    {
      assert decls[..i + 1][..i] == decls[..i];
      var d := decls[i];
      if !d.GenDecl? {
        continue;
      }
      var specs := d.specs;
      ghost var start := vMap;
      for j := 0 to |specs|
        invariant SpecsFold(start, specs[..j], paramName) == Done(vMap)
      {
        assert specs[..j + 1][..j] == specs[..j];
        var spec := specs[j];
        if !spec.TypeSpec? || spec.name != paramName || !spec.typ.StructType? {
          continue;
        }
        var parsed := ParseFields(vMap, spec.typ.fields);
        if parsed.Panic? {
          SpecsPanicSticks(start, specs, paramName, j + 1);
          assert specs[..|specs|] == specs;
          DeclsPanicSticks(map[], decls, paramName, i + 1);
          return Panic(parsed.reason);
        }
        vMap := parsed.value;
      }
      assert specs[..|specs|] == specs;
    }
    assert decls[..|decls|] == decls;
    r := Done(vMap);
  }

  // ---------------------------------------------------------------------
  // parseMethods

  const ApiPrefix: string := "apigen:api"

  /** A method parseMethods registers: annotated, with a receiver list. */
  predicate Annotated(d: Decl)
  {
    d.FuncDecl? && HasPrefix(d.doc, ApiPrefix)
  }

  /** Store the shape under every pointer receiver's type name and the handler name. */
  function Register(apiMap: ApiMap, recvs: seq<Receiver>, handler: string, shape: ApiShape): ApiMap
    decreases |recvs|
  {
    if |recvs| == 0 then apiMap
    else
      var m := Register(apiMap, recvs[..|recvs| - 1], handler, shape);
      match recvs[|recvs| - 1]
      case Plain(_) => m
      case Star(api) => m[api := (if api in m then m[api] else map[])[handler := shape]]
  }

  /** Every `*T` receiver gets the shape under the handler name. */
  lemma {:induction false} RegisterStores(apiMap: ApiMap, recvs: seq<Receiver>, handler: string, shape: ApiShape, api: string)
    requires Star(api) in recvs
    ensures var r := Register(apiMap, recvs, handler, shape);
            api in r && handler in r[api] && r[api][handler] == shape
    decreases |recvs|
  {
    var front, last := recvs[..|recvs| - 1], recvs[|recvs| - 1];
    assert recvs == front + [last];
    if last != Star(api) {
      RegisterStores(apiMap, front, handler, shape, api);
    }
  }

  /** Every entry other than the handler's under a `*T` receiver is kept. */
  lemma {:induction false} RegisterKeeps(apiMap: ApiMap, recvs: seq<Receiver>, handler: string, shape: ApiShape, api: string, h: string)
    requires api in apiMap && h in apiMap[api] && !(h == handler && Star(api) in recvs)
    ensures var r := Register(apiMap, recvs, handler, shape);
            api in r && h in r[api] && r[api][h] == apiMap[api][h]
    decreases |recvs|
  {
    if |recvs| > 0 {
      var front, last := recvs[..|recvs| - 1], recvs[|recvs| - 1];
      assert recvs == front + [last];
      assert Star(api) in front ==> Star(api) in recvs;
      RegisterKeeps(apiMap, front, handler, shape, api, h);
    }
  }

  /** Register adds nothing but the handler's entries under the `*T` receivers. */
  lemma {:induction false} RegisterOnly(apiMap: ApiMap, recvs: seq<Receiver>, handler: string, shape: ApiShape, api: string, h: string)
    requires var r := Register(apiMap, recvs, handler, shape);
             api in r && h in r[api]
    ensures var r := Register(apiMap, recvs, handler, shape);
            || (api in apiMap && h in apiMap[api] && r[api][h] == apiMap[api][h])
            || (h == handler && Star(api) in recvs)
    decreases |recvs|
  {
    if |recvs| > 0 {
      var front, last := recvs[..|recvs| - 1], recvs[|recvs| - 1];
      assert recvs == front + [last];
      if !(last == Star(api) && h == handler) {
        assert Star(api) in front ==> Star(api) in recvs;
        RegisterOnly(apiMap, front, handler, shape, api, h);
      }
    }
  }

  /** The annotation decoded, and, with a second parameter, that parameter's struct validators. */
  function ShapeOf(d: Decl, decls: seq<Decl>, decode: string -> ApiShape): Outcome<ApiShape>
    requires d.FuncDecl?
  {
    var shape := decode(ReplaceFirst(d.doc, ApiPrefix, ""));
    if |d.params| > 1 then
      match StructValidators(map[], decls, d.params[1])
      case Panic(reason) => Panic(reason)
      case Done(vMap) => Done(shape.(paramsName := d.params[1], params := vMap))
    else Done(shape)
  }

  /** One declaration of the scan; a plain function carrying the annotation panics on its nil receiver. */
  function MethodStep(apiMap: ApiMap, d: Decl, decls: seq<Decl>, decode: string -> ApiShape): Outcome<ApiMap>
  {
    if !Annotated(d) then Done(apiMap)
    else if d.recv.None? then Panic("nil pointer dereference")
    else
      match ShapeOf(d, decls, decode)
      case Panic(reason) => Panic(reason)
      case Done(shape) => Done(Register(apiMap, d.recv.value, d.name, shape))
  }

  /** What parseMethods returns after scanning ds (the whole file is decls). */
  function Methods(apiMap: ApiMap, ds: seq<Decl>, decls: seq<Decl>, decode: string -> ApiShape): Outcome<ApiMap>
    decreases |ds|
  {
    if |ds| == 0 then Done(apiMap)
    else
      match Methods(apiMap, ds[..|ds| - 1], decls, decode)
      case Panic(reason) => Panic(reason)
      case Done(m) => MethodStep(m, ds[|ds| - 1], decls, decode)
  }

  lemma {:induction false} MethodsPanicSticks(apiMap: ApiMap, ds: seq<Decl>, decls: seq<Decl>, decode: string -> ApiShape, k: nat)
    requires k <= |ds| && Methods(apiMap, ds[..k], decls, decode).Panic?
    ensures Methods(apiMap, ds, decls, decode) == Methods(apiMap, ds[..k], decls, decode)
    decreases |ds|
  {
    if k < |ds| {
      var front := ds[..|ds| - 1];
      assert front[..k] == ds[..k];
      MethodsPanicSticks(apiMap, front, decls, decode, k);
    } else {
      assert ds[..k] == ds;
    }
  }

  /** Registered with this receiver type and handler name. */
  ghost predicate RegisteredBy(d: Decl, api: string, handler: string)
  {
    Annotated(d) && d.name == handler && d.recv.Some? && Star(api) in d.recv.value
  }

  /** Every entry of m was registered by one of ds. */
  ghost predicate FromAnnotated(m: ApiMap, ds: seq<Decl>)
  {
    forall api, h :: api in m && h in m[api] ==> exists i :: 0 <= i < |ds| && RegisteredBy(ds[i], api, h)
  }

  /** Every entry comes from an annotated method on a pointer receiver of that type. */
  lemma {:induction false} MethodsOnlyAnnotated(ds: seq<Decl>, decls: seq<Decl>, decode: string -> ApiShape)
    ensures Methods(map[], ds, decls, decode).Done? ==> FromAnnotated(Methods(map[], ds, decls, decode).value, ds)
    decreases |ds|
  {
    if |ds| > 0 {
      var front, last := ds[..|ds| - 1], ds[|ds| - 1];
      MethodsOnlyAnnotated(front, decls, decode);
      if Methods(map[], ds, decls, decode).Done? {
        var m0 := Methods(map[], front, decls, decode).value;
        var m := Methods(map[], ds, decls, decode).value;
        assert FromAnnotated(m0, front);
        if Annotated(last) {
          assert m == Register(m0, last.recv.value, last.name, ShapeOf(last, decls, decode).value);
        } else {
          assert m == m0;
        }
        forall api, h | api in m && h in m[api]
          ensures exists i :: 0 <= i < |ds| && RegisteredBy(ds[i], api, h)
        {
          if api in m0 && h in m0[api] {
            var i :| 0 <= i < |front| && RegisteredBy(front[i], api, h);
            assert ds[i] == front[i];
          } else {
            RegisterOnly(m0, last.recv.value, last.name, ShapeOf(last, decls, decode).value, api, h);
            assert RegisteredBy(ds[|ds| - 1], api, h);
          }
        }
      }
    }
  }

  /** A later method with the same receiver and name replaces the earlier shape. */
  lemma LaterDuplicateOverwrites(apiMap: ApiMap, ds: seq<Decl>, d: Decl, decls: seq<Decl>, decode: string -> ApiShape, api: string)
    requires Annotated(d) && d.recv.Some? && Star(api) in d.recv.value
    requires Methods(apiMap, ds, decls, decode).Done?
    requires ShapeOf(d, decls, decode).Done?
    ensures Methods(apiMap, ds + [d], decls, decode).Done?
    ensures var m := Methods(apiMap, ds + [d], decls, decode).value;
            api in m && d.name in m[api] && m[api][d.name] == ShapeOf(d, decls, decode).value
  {
    assert (ds + [d])[..|ds + [d]| - 1] == ds;
    RegisterStores(Methods(apiMap, ds, decls, decode).value, d.recv.value, d.name, ShapeOf(d, decls, decode).value, api);
  }

  /** One declaration that does not register api/h keeps that entry. */
  lemma MethodStepKeeps(m0: ApiMap, d: Decl, decls: seq<Decl>, decode: string -> ApiShape, api: string, h: string)
    requires MethodStep(m0, d, decls, decode).Done?
    requires api in m0 && h in m0[api] && !RegisteredBy(d, api, h)
    ensures var m := MethodStep(m0, d, decls, decode).value;
            api in m && h in m[api] && m[api][h] == m0[api][h]
  {
    if Annotated(d) {
      RegisterKeeps(m0, d.recv.value, d.name, ShapeOf(d, decls, decode).value, api, h);
    }
  }

  /** An entry survives the scan when no later declaration registers the same receiver type and name. */
  lemma {:induction false} MethodsKeeps(apiMap: ApiMap, ds: seq<Decl>, decls: seq<Decl>, decode: string -> ApiShape, api: string, h: string)
    requires Methods(apiMap, ds, decls, decode).Done?
    requires api in apiMap && h in apiMap[api]
    requires forall j :: 0 <= j < |ds| ==> !RegisteredBy(ds[j], api, h)
    ensures var m := Methods(apiMap, ds, decls, decode).value;
            api in m && h in m[api] && m[api][h] == apiMap[api][h]
    decreases |ds|
  {
    if |ds| > 0 {
      var front, last := ds[..|ds| - 1], ds[|ds| - 1];
      assert forall j :: 0 <= j < |front| ==> front[j] == ds[j];
      MethodsKeeps(apiMap, front, decls, decode, api, h);
      MethodStepKeeps(Methods(apiMap, front, decls, decode).value, last, decls, decode, api, h);
    }
  }

  /** The last declaration that registers api/h, from position i on. */
  lemma {:induction false} LastRegistrar(ds: seq<Decl>, api: string, h: string, i: int) returns (j: int)
    requires 0 <= i < |ds| && RegisteredBy(ds[i], api, h)
    ensures i <= j < |ds| && RegisteredBy(ds[j], api, h)
    ensures forall k :: j < k < |ds| ==> !RegisteredBy(ds[k], api, h)
    decreases |ds|
  {
    if RegisteredBy(ds[|ds| - 1], api, h) {
      j := |ds| - 1;
    } else {
      var front := ds[..|ds| - 1];
      assert front[i] == ds[i];
      j := LastRegistrar(front, api, h, i);
      assert forall k :: j < k < |front| ==> ds[k] == front[k];
    }
  }

  /** The last declaration registering api/h decides the shape stored under it. */
  lemma {:induction false} MethodsStoresLast(apiMap: ApiMap, ds: seq<Decl>, decls: seq<Decl>, decode: string -> ApiShape,
                                             api: string, h: string, j: int)
    requires Methods(apiMap, ds, decls, decode).Done?
    requires 0 <= j < |ds| && RegisteredBy(ds[j], api, h)
    requires forall k :: j < k < |ds| ==> !RegisteredBy(ds[k], api, h)
    ensures ShapeOf(ds[j], decls, decode).Done?
    ensures var m := Methods(apiMap, ds, decls, decode).value;
            api in m && h in m[api] && m[api][h] == ShapeOf(ds[j], decls, decode).value
    decreases |ds|
  {
    var front, last := ds[..|ds| - 1], ds[|ds| - 1];
    var m0 := Methods(apiMap, front, decls, decode).value;
    if j == |ds| - 1 {
      RegisterStores(m0, last.recv.value, last.name, ShapeOf(last, decls, decode).value, api);
    } else {
      assert front[j] == ds[j];
      assert forall k :: j < k < |front| ==> front[k] == ds[k];
      MethodsStoresLast(apiMap, front, decls, decode, api, h, j);
      MethodStepKeeps(m0, last, decls, decode, api, h);
    }
  }

  /**
   * Every annotated method on a `*T` receiver is in the result, under T and
   * its name, with the shape of the last declaration that registers that pair.
   */
  lemma MethodsRegistersEvery(apiMap: ApiMap, ds: seq<Decl>, decls: seq<Decl>, decode: string -> ApiShape,
                              api: string, h: string, i: int)
    requires Methods(apiMap, ds, decls, decode).Done?
    requires 0 <= i < |ds| && RegisteredBy(ds[i], api, h)
    ensures var m := Methods(apiMap, ds, decls, decode).value;
            && api in m && h in m[api]
            && exists j :: && i <= j < |ds| && RegisteredBy(ds[j], api, h)
                           && (forall k :: j < k < |ds| ==> !RegisteredBy(ds[k], api, h))
                           && ShapeOf(ds[j], decls, decode).Done?
                           && m[api][h] == ShapeOf(ds[j], decls, decode).value
  {
    var j := LastRegistrar(ds, api, h, i);
    MethodsStoresLast(apiMap, ds, decls, decode, api, h, j);
  }

  /** The receiver loop of parseMethods: each `*T` receiver files the shape under T. */
  method RegisterReceivers(apiMap: ApiMap, funcList: seq<Receiver>, handlerName: string, shape: ApiShape)
    returns (m: ApiMap)
    ensures m == Register(apiMap, funcList, handlerName, shape)
  {
    m := apiMap;
    for j := 0 to |funcList|
      invariant m == Register(apiMap, funcList[..j], handlerName, shape)
    {
      assert funcList[..j + 1][..j] == funcList[..j];
      var item := funcList[j];
      if !item.Star? {
        continue;
      }
      var apiName := item.typeName;
      ghost var expected := m[apiName := (if apiName in m then m[apiName] else map[])[handlerName := shape]];
      assert expected == Register(apiMap, funcList[..j + 1], handlerName, shape);
      if apiName in m {
        m := m[apiName := m[apiName][handlerName := shape]];
      } else {
        m := m[apiName := map[]];
        m := m[apiName := m[apiName][handlerName := shape]];
      }
      assert m == expected;
    }
    assert funcList[..|funcList|] == funcList;
  }

  /** parseMethods: annotated methods grouped by receiver type, then by handler name. */
  method ParseMethods(decls: seq<Decl>, decode: string -> ApiShape) returns (r: Outcome<ApiMap>)
    ensures r == Methods(map[], decls, decls, decode)
  {
    var apiMap: ApiMap := map[];
    for i := 0 to |decls|
      invariant Methods(map[], decls[..i], decls, decode) == Done(apiMap)
    {
      assert decls[..i + 1][..i] == decls[..i];
      var f := decls[i];
      if !f.FuncDecl? {
        continue;
      }
      var comment := f.doc;
      if !HasPrefix(comment, ApiPrefix) {
        continue;
      }
      var shape := decode(ReplaceFirst(comment, ApiPrefix, ""));
      var handlerName := f.name;
      if f.recv.None? {
        MethodsPanicSticks(map[], decls, decls, decode, i + 1);
        return Panic("nil pointer dereference");
      }
      var funcList := f.recv.value;
      if |f.params| > 1 {
        var param := f.params[1];
        var parsedStruct := ParseStructs(decls, param);
        if parsedStruct.Panic? {
          MethodsPanicSticks(map[], decls, decls, decode, i + 1);
          return Panic(parsedStruct.reason);
        }
        shape := shape.(paramsName := param, params := parsedStruct.value);
      }
      assert ShapeOf(f, decls, decode) == Done(shape);
      apiMap := RegisterReceivers(apiMap, funcList, handlerName, shape);
    }
    assert decls[..|decls|] == decls;
    r := Done(apiMap);
  }

  // ---------------------------------------------------------------------
  // contains

  /** contains: whether e occurs in s. */
  method SliceContains(s: seq<string>, e: string) returns (found: bool)
    ensures found <==> e in s
  {
    for i := 0 to |s|
      invariant e !in s[..i]
    {
      if s[i] == e {
        return true;
      }
    }
    assert s[..|s|] == s;
    return false;
  }
}
