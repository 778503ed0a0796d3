/** The registry editor (`addMCPModel.js`): an interactive script that
    appends one model to the registry. Its prompts are modelled as a
    scripted sequence of answers, consumed one per question; when the
    answers run out the script waits forever and writes nothing. */
module RegistryEditor {
  import opened JsString
  import opened Seqs
  import opened Registry
  import opened JsObject

  // ---------------------------------------------------------------------
  // Names

  /** `/^[A-Z][a-zA-Z0-9]*$/` */
  predicate IsPascalCase(name: string) {
    |name| > 0 && IsUpper(name[0]) && forall k :: 1 <= k < |name| ==> IsAlnum(name[k])
  }

  /** `fields[fieldName]` is truthy: the name is present, or inherited. */
  predicate FieldTaken(fields: seq<Field>, name: string) {
    name in FieldNames(fields) || name in ObjectPrototypeKeys
  }

  /** Every new model starts with these two fields. */
  const SeedFields: seq<Field> := [Field("id", "string"), Field("tenantId", "string")]

  // ---------------------------------------------------------------------
  // parseInt

  /** The white space `parseInt` skips: ECMAScript's WhiteSpace and
      LineTerminator characters. */
  predicate IsJsWhitespace(c: char) {
    || c == ' ' || c == '\t' || c == '\n' || c == '\r' || c == '\U{000B}' || c == '\U{000C}'
    || c == '\U{00A0}' || c == '\U{1680}' || ('\U{2000}' <= c <= '\U{200A}')
    || c == '\U{2028}' || c == '\U{2029}' || c == '\U{202F}' || c == '\U{205F}'
    || c == '\U{3000}' || c == '\U{FEFF}'
  }

  function TrimStart(s: string): (r: string)
    ensures |r| <= |s| && r == s[|s| - |r|..]
    ensures |r| > 0 ==> !IsJsWhitespace(r[0])
    decreases |s|
  {
    if |s| > 0 && IsJsWhitespace(s[0]) then TrimStart(s[1..]) else s
  }

  predicate IsHexDigit(c: char) {
    IsDigit(c) || ('a' <= c <= 'f') || ('A' <= c <= 'F')
  }

  predicate IsRadixDigit(c: char, hex: bool) {
    if hex then IsHexDigit(c) else IsDigit(c)
  }

  /** The longest prefix of digits of the radix. */
  function DigitPrefix(s: string, hex: bool): (r: string)
    ensures |r| <= |s| && r == s[..|r|]
    ensures forall k :: 0 <= k < |r| ==> IsRadixDigit(r[k], hex)
    ensures |r| < |s| ==> !IsRadixDigit(s[|r|], hex)
    decreases |s|
  {
    if |s| > 0 && IsRadixDigit(s[0], hex) then [s[0]] + DigitPrefix(s[1..], hex) else ""
  }

  /** `parseInt(s)` without a radix: leading white space is skipped, then
      an optional sign, then a `0x`/`0X` prefix selects hexadecimal;
      the longest run of digits that follows is the value, and no digits
      at all is `NaN` (here `None`). */
  function ParseInt(s: string): Option<int> {
    ParseSigned(TrimStart(s))
  }

  function ParseSigned(t: string): Option<int> {
    if |t| > 0 && t[0] == '-' then Negate(ParseUnsigned(t[1..]))
    else if |t| > 0 && t[0] == '+' then ParseUnsigned(t[1..])
    else ParseUnsigned(t)
  }

  function ParseUnsigned(u: string): Option<int> {
    var hex := |u| >= 2 && u[0] == '0' && (u[1] == 'x' || u[1] == 'X');
    var ds := DigitPrefix(if hex then u[2..] else u, hex);
    if |ds| == 0 then None else Some(DigitsValue(ds, if hex then 16 else 10))
  }

  function Negate(v: Option<int>): Option<int> {
    match v
    case None => None
    case Some(n) => Some(-n)
  }

  // ---------------------------------------------------------------------
  // The script

  /** The scalar keywords the type menu offers. */
  const TypeKeywords: seq<string> := ["string", "number", "text", "datetime"]

  /** The type menu: choices 1 to 4 write a keyword; 5 and 6 ask one more
      question; anything else is refused. */
  function KeywordChoice(choice: string): (r: Option<string>)
    ensures r.Some? <==> choice in ["1", "2", "3", "4"]
    ensures r.Some? ==> r.value in TypeKeywords
  {
    if choice == "1" then Some("string")
    else if choice == "2" then Some("number")
    else if choice == "3" then Some("text")
    else if choice == "4" then Some("datetime")
    else None
  }

  /** The model picked by the answer to the foreign-model question, if
      the answer names one of the models listed. */
  function PickModel(models: seq<Model>, answer: string): (r: Option<string>)
    ensures r.Some? ==> r.value in ModelNames(models)
  {
    match ParseInt(answer)
    case None => None
    case Some(n) => if 0 <= n - 1 < |models| then Some(models[n - 1].name) else None
  }

  datatype Entry = Finished(fields: seq<Field>, rest: seq<string>) | OutOfAnswers

  /** The field-entry loop, consuming answers: a blank field name ends it;
      a taken name, an empty enum, an out-of-range model number or an
      unknown type choice skip the field; everything else appends it.
      Foreign fields may refer to the models present before this run. */
  function EnterFields(models: seq<Model>, fields: seq<Field>, answers: seq<string>): (r: Entry)
    ensures r.Finished? ==> |fields| <= |r.fields| && r.fields[..|fields|] == fields
    ensures r.Finished? ==> |r.rest| < |answers|
    decreases |answers|
  {
    if |answers| == 0 then OutOfAnswers
    else
      var name := answers[0];
      if name == "" then Finished(fields, answers[1..])
      else if FieldTaken(fields, name) then EnterFields(models, fields, answers[1..])
      else if |answers| < 2 then OutOfAnswers
      else
        var choice := answers[1];
        var rest := answers[2..];
        if KeywordChoice(choice).Some? then
          EnterFields(models, fields + [Field(name, KeywordChoice(choice).value)], rest)
        else if choice == "5" then
          if |rest| == 0 then OutOfAnswers
          else if rest[0] == "" then EnterFields(models, fields, rest[1..])
          else EnterFields(models, fields + [Field(name, EnumPrefix + rest[0])], rest[1..])
        else if choice == "6" then
          if |rest| == 0 then OutOfAnswers
          else
            match PickModel(models, rest[0])
            case None => EnterFields(models, fields, rest[1..])
            case Some(target) => EnterFields(models, fields + [Field(name, ForeignPrefix + target)], rest[1..])
        else EnterFields(models, fields, rest)
  }

  datatype Outcome =
    | Added(models: seq<Model>, runSync: bool)
    | InvalidName
    | DuplicateModel
    | Abandoned

  /** `addModel`: the model name is checked, the fields are entered, the
      model is appended and the registry written, and the last answer
      decides whether the generators are run (`s` in any case). */
  function AddModel(models: seq<Model>, answers: seq<string>): Outcome {
    if |answers| == 0 then Abandoned
    else if !IsPascalCase(answers[0]) then InvalidName
    else if answers[0] in ModelNames(models) then DuplicateModel
    else
      match EnterFields(models, SeedFields, answers[1..])
      case OutOfAnswers => Abandoned
      case Finished(fields, rest) =>
        Added(models + [Model(answers[0], fields)], |rest| > 0 && ToLower(rest[0]) == "s")
  }

  // ---------------------------------------------------------------------
  // parseInt and the model menu

  lemma {:induction false} DigitPrefixOf(ds: string, junk: string, hex: bool)
    requires forall k :: 0 <= k < |ds| ==> IsRadixDigit(ds[k], hex)
    requires |junk| == 0 || !IsRadixDigit(junk[0], hex)
    ensures DigitPrefix(ds + junk, hex) == ds
    decreases |ds|
  {
    if |ds| > 0 {
      assert (ds + junk)[1..] == ds[1..] + junk;
      DigitPrefixOf(ds[1..], junk, hex);
    } else {
      assert ds + junk == junk;
    }
  }

  /** `parseInt` reads a run of decimal digits not starting with `0` as
      its value and ignores whatever follows the run. */
  lemma ParseIntDecimal(ds: string, junk: string)
    requires |ds| > 0 && ds[0] != '0'
    requires forall k :: 0 <= k < |ds| ==> IsDigit(ds[k])
    requires |junk| == 0 || !IsDigit(junk[0])
    ensures ParseInt(ds + junk) == Some(DigitsValue(ds, 10))
  {
    var s := ds + junk;
    assert s[0] == ds[0];
    assert !IsJsWhitespace(s[0]);
    assert TrimStart(s) == s;
    assert ParseSigned(s) == ParseUnsigned(s);
    DigitPrefixOf(ds, junk, false);
    assert DigitPrefix(s, false) == ds;
  }

  /** `parseInt` skips leading white space. */
  lemma {:induction false} ParseIntSkipsWhitespace(w: string, s: string)
    requires forall k :: 0 <= k < |w| ==> IsJsWhitespace(w[k])
    ensures ParseInt(w + s) == ParseInt(s)
  {
    TrimStartWhitespace(w, s);
  }

  lemma {:induction false} TrimStartWhitespace(w: string, s: string)
    requires forall k :: 0 <= k < |w| ==> IsJsWhitespace(w[k])
    ensures TrimStart(w + s) == TrimStart(s)
    decreases |w|
  {
    if |w| > 0 {
      assert (w + s)[1..] == w[1..] + s;
      TrimStartWhitespace(w[1..], s);
    } else {
      assert w + s == s;
    }
  }

  /** A leading minus sign negates what follows it. */
  lemma ParseIntMinus(s: string)
    requires |s| > 0 ==> !IsJsWhitespace(s[0]) && s[0] != '+' && s[0] != '-'
    ensures ParseInt("-" + s) == Negate(ParseInt(s))
  {
    var t := "-" + s;
    assert t[0] == '-' && t[1..] == s;
    assert TrimStart(t) == t;
    assert TrimStart(s) == s;
  }

  /** Answering the number printed next to a model in the menu picks that
      model, whichever registry is listed. */
  lemma MenuChoiceSelects(models: seq<Model>, i: nat)
    requires i < |models|
    ensures PickModel(models, Decimal(i + 1)) == Some(models[i].name)
  {
    DecimalValue(i + 1);
    ParseIntDecimal(Decimal(i + 1), "");
    assert Decimal(i + 1) + "" == Decimal(i + 1);
  }

  /** The foreign-model answer `0`, a negative number, or one past the end
      of the menu picks nothing; so does an answer with no digits. */
  lemma MenuChoiceOutOfRange(models: seq<Model>, answer: string)
    requires ParseInt(answer).None? || ParseInt(answer).value < 1 || ParseInt(answer).value > |models|
    ensures PickModel(models, answer).None?
  {
  }

  // ---------------------------------------------------------------------
  // What the editor writes

  /** A type expression the menu can produce for a registry `models`. */
  predicate WrittenType(models: seq<Model>, t: string) {
    || t in TypeKeywords
    || (IsEnumType(t) && |t| > |EnumPrefix|)
    || (IsForeignType(t) && t[|ForeignPrefix|..] in ModelNames(models))
  }

  /** The fields of a model the editor wrote: distinct names, none blank,
      none an inherited object property, and every type one the menu
      offers. */
  predicate ValidFields(models: seq<Model>, fields: seq<Field>) {
    && NoDuplicates(FieldNames(fields))
    && forall i :: 0 <= i < |fields| ==>
         && fields[i].name != ""
         && fields[i].name !in ObjectPrototypeKeys
         && WrittenType(models, fields[i].typ)
  }

  lemma SeedFieldsValid(models: seq<Model>)
    ensures ValidFields(models, SeedFields)
  {
    assert FieldNames(SeedFields) == ["id", "tenantId"];
    assert "string" in TypeKeywords;
  }

  lemma ValidFieldsSnoc(models: seq<Model>, fields: seq<Field>, f: Field)
    requires ValidFields(models, fields)
    requires f.name != "" && !FieldTaken(fields, f.name) && WrittenType(models, f.typ)
    ensures ValidFields(models, fields + [f])
  {
    var fs := fields + [f];
    forall i, j | 0 <= i < j < |fs|
      ensures FieldNames(fs)[i] != FieldNames(fs)[j]
    {
      if j == |fields| {
        assert FieldNames(fields)[i] == fs[i].name;
      }
    }
  }

  /** What is left after dropping the first `k` answers and then some more
      is what is left after dropping them all at once. */
  lemma SuffixOfDrop(xs: seq<string>, k: nat, ys: seq<string>)
    requires k <= |xs| && |ys| <= |xs| - k && ys == xs[k..][|xs| - k - |ys|..]
    ensures ys == xs[|xs| - |ys|..]
  {
  }

  /** The field-entry loop reads its answers in order: what it leaves
      unread is the tail of the answers it was given. */
  lemma {:induction false} EnterFieldsConsumes(models: seq<Model>, fields: seq<Field>, answers: seq<string>)
    ensures var r := EnterFields(models, fields, answers);
      r.Finished? ==> r.rest == answers[|answers| - |r.rest|..]
    decreases |answers|, 1
  {
    if |answers| == 0 || answers[0] == "" {
    } else if FieldTaken(fields, answers[0]) {
      ConsumesAfter(models, fields, answers, 1);
    } else if |answers| >= 2 {
      var name, choice, rest := answers[0], answers[1], answers[2..];
      if KeywordChoice(choice).Some? {
        ConsumesAfter(models, fields + [Field(name, KeywordChoice(choice).value)], answers, 2);
      } else if choice == "5" {
        if |rest| > 0 {
          assert rest[1..] == answers[3..];
          if rest[0] == "" {
            ConsumesAfter(models, fields, answers, 3);
          } else {
            ConsumesAfter(models, fields + [Field(name, EnumPrefix + rest[0])], answers, 3);
          }
        }
      } else if choice == "6" {
        if |rest| > 0 {
          assert rest[1..] == answers[3..];
          match PickModel(models, rest[0])
          case None =>
            ConsumesAfter(models, fields, answers, 3);
          case Some(target) =>
            ConsumesAfter(models, fields + [Field(name, ForeignPrefix + target)], answers, 3);
        }
      } else {
        ConsumesAfter(models, fields, answers, 2);
      }
    }
  }

  lemma {:induction false} ConsumesAfter(models: seq<Model>, fields: seq<Field>, answers: seq<string>, k: nat)
    requires 0 < k <= |answers|
    ensures var r := EnterFields(models, fields, answers[k..]);
      r.Finished? ==> r.rest == answers[|answers| - |r.rest|..]
    decreases |answers|, 0
  {
    var r := EnterFields(models, fields, answers[k..]);
    EnterFieldsConsumes(models, fields, answers[k..]);
    if r.Finished? {
      SuffixOfDrop(answers, k, r.rest);
    }
  }

  /** The field-entry loop only appends, and only fields that keep the
      model's field list valid. */
  lemma {:induction false} EnterFieldsValid(models: seq<Model>, fields: seq<Field>, answers: seq<string>)
    requires ValidFields(models, fields)
    ensures EnterFields(models, fields, answers).Finished? ==>
      ValidFields(models, EnterFields(models, fields, answers).fields)
    decreases |answers|
  {
    if |answers| == 0 || answers[0] == "" {
    } else if FieldTaken(fields, answers[0]) {
      EnterFieldsValid(models, fields, answers[1..]);
    } else if |answers| >= 2 {
      var name, choice, rest := answers[0], answers[1], answers[2..];
      if KeywordChoice(choice).Some? {
        ValidFieldsSnoc(models, fields, Field(name, KeywordChoice(choice).value));
        EnterFieldsValid(models, fields + [Field(name, KeywordChoice(choice).value)], rest);
      } else if choice == "5" {
        if |rest| > 0 {
          if rest[0] == "" {
            EnterFieldsValid(models, fields, rest[1..]);
          } else {
            var t := EnumPrefix + rest[0];
            assert StartsWith(t, EnumPrefix);
            ValidFieldsSnoc(models, fields, Field(name, t));
            EnterFieldsValid(models, fields + [Field(name, t)], rest[1..]);
          }
        }
      } else if choice == "6" {
        if |rest| > 0 {
          match PickModel(models, rest[0])
          case None =>
            EnterFieldsValid(models, fields, rest[1..]);
          case Some(target) =>
            var t := ForeignPrefix + target;
            assert StartsWith(t, ForeignPrefix) && t[|ForeignPrefix|..] == target;
            ValidFieldsSnoc(models, fields, Field(name, t));
            EnterFieldsValid(models, fields + [Field(name, t)], rest[1..]);
        }
      } else {
        EnterFieldsValid(models, fields, rest);
      }
    }
  }

  // ---------------------------------------------------------------------
  // Registry invariant

  /** Every foreign field of every model refers, as the generators read it,
      to a model of the registry. */
  predicate ForeignKeysResolve(models: seq<Model>, universe: seq<Model>) {
    forall i, j :: 0 <= i < |models| && 0 <= j < |models[i].fields| ==>
      (Parse(models[i].fields[j].typ).Foreign? ==> Parse(models[i].fields[j].typ).target in ModelNames(universe))
  }

  /** A registry as the editor keeps it: PascalCase model names, no two
      alike, and foreign keys that resolve. */
  predicate ValidRegistry(models: seq<Model>) {
    && DistinctNames(models)
    && (forall i :: 0 <= i < |models| ==> IsPascalCase(models[i].name))
    && ForeignKeysResolve(models, models)
  }

  /** How the generators read a type the editor wrote: a menu keyword, an
      enumeration, or a reference to a listed model. */
  lemma WrittenTypeParses(models: seq<Model>, t: string)
    requires forall i :: 0 <= i < |models| ==> IsPascalCase(models[i].name)
    requires WrittenType(models, t)
    ensures Parse(t).Scalar? ==> t in TypeKeywords
    ensures Parse(t).Foreign? ==> Parse(t).target == t[|ForeignPrefix|..] && Parse(t).target in ModelNames(models)
  {
    if IsForeignType(t) {
      PrefixesExclusive(t);
      assert t !in TypeKeywords by {
        if t in TypeKeywords {
          UnprefixedByFirstChar(t);
        }
      }
      var name := t[|ForeignPrefix|..];
      var i :| 0 <= i < |models| && ModelNames(models)[i] == name;
      assert ':' !in name by {
        forall k | 0 <= k < |name| ensures name[k] != ':' {
          assert IsUpper(name[0]);
          assert k == 0 || IsAlnum(name[k]);
        }
      }
      ForeignTargetOf(t);
      SplitNoSeparator(name, ':');
    }
  }

  lemma ModelNamesSnoc(models: seq<Model>, m: Model)
    ensures ModelNames(models + [m]) == ModelNames(models) + [m.name]
  {
  }

  // ---------------------------------------------------------------------
  // addModel

  /** A new model is appended after the registry, unchanged: its name
      is the PascalCase answer that no model had, it begins with `id`
      and `tenantId`, and its fields are valid. */
  lemma AddModelAppends(models: seq<Model>, answers: seq<string>)
    ensures AddModel(models, answers).Added? ==>
      var ms := AddModel(models, answers).models;
      && |ms| == |models| + 1
      && ms[..|models|] == models
      && ms[|models|].name == answers[0]
      && IsPascalCase(answers[0]) && answers[0] !in ModelNames(models)
      && ms[|models|].fields[..2] == SeedFields
      && ValidFields(models, ms[|models|].fields)
  {
    if AddModel(models, answers).Added? {
      SeedFieldsValid(models);
      EnterFieldsValid(models, SeedFields, answers[1..]);
      assert (models + [AddModel(models, answers).models[|models|]])[..|models|] == models;
    }
  }

  /** Nothing is written when the name is not PascalCase or is taken, and
      these are the only rejections. */
  lemma AddModelRejects(models: seq<Model>, answers: seq<string>)
    requires |answers| > 0
    ensures AddModel(models, answers).InvalidName? <==> !IsPascalCase(answers[0])
    ensures AddModel(models, answers).DuplicateModel? <==>
      IsPascalCase(answers[0]) && exists i :: 0 <= i < |models| && models[i].name == answers[0]
  {
  }

  lemma ToLowerIsS(x: string)
    ensures ToLower(x) == "s" <==> x == "s" || x == "S"
  {
    if x == "s" || x == "S" {
      assert ToLower(x)[0] == 's';
    }
    if ToLower(x) == "s" {
      assert LowerChar(x[0]) == 's';
    }
  }

  /** Once the fields are entered the model is written; the generators are
      then run exactly when the next answer is `s` or `S`. */
  lemma AddModelSync(models: seq<Model>, answers: seq<string>, fields: seq<Field>, rest: seq<string>)
    requires |answers| > 0 && IsPascalCase(answers[0]) && answers[0] !in ModelNames(models)
    requires EnterFields(models, SeedFields, answers[1..]) == Finished(fields, rest)
    ensures AddModel(models, answers)
      == Added(models + [Model(answers[0], fields)], |rest| > 0 && (rest[0] == "s" || rest[0] == "S"))
  {
    if |rest| > 0 {
      ToLowerIsS(rest[0]);
    }
  }

  /** Adding a model keeps a valid registry valid. */
  lemma AddModelKeepsRegistryValid(models: seq<Model>, answers: seq<string>)
    requires ValidRegistry(models)
    ensures AddModel(models, answers).Added? ==> ValidRegistry(AddModel(models, answers).models)
  {
    if AddModel(models, answers).Added? {
      AddModelAppends(models, answers);
      var ms := AddModel(models, answers).models;
      var m := ms[|models|];
      assert ms == models + [m];
      ModelNamesSnoc(models, m);
      forall i, j | 0 <= i < |ms| && 0 <= j < |ms[i].fields| && Parse(ms[i].fields[j].typ).Foreign?
        ensures Parse(ms[i].fields[j].typ).target in ModelNames(ms)
      {
        if i < |models| {
          assert ms[i] == models[i];
        } else {
          WrittenTypeParses(models, m.fields[j].typ);
        }
      }
      forall i, j | 0 <= i < j < |ms|
        ensures ms[i].name != ms[j].name
      {
        if j == |models| {
          assert ModelNames(models)[i] == ms[i].name;
        }
      }
    }
  }

  // ---------------------------------------------------------------------
  // Sessions

  /** A lower-case model name is refused before any field is asked. */
  lemma LowercaseNameRejected(models: seq<Model>, answers: seq<string>)
    requires |answers| > 0 && answers[0] == "product"
    ensures AddModel(models, answers) == InvalidName
  {
    assert !IsUpper(answers[0][0]);
  }

  /** Names shorter than every inherited property are never inherited. */
  lemma ShortNameNotInherited(name: string)
    requires |name| < 7
    ensures name !in ObjectPrototypeKeys
  {
  }

  /** A new field with a keyword type is appended. */
  lemma EnterKeyword(models: seq<Model>, fields: seq<Field>, name: string, choice: string, rest: seq<string>)
    requires name != "" && !FieldTaken(fields, name) && KeywordChoice(choice).Some?
    ensures EnterFields(models, fields, [name, choice] + rest)
      == EnterFields(models, fields + [Field(name, KeywordChoice(choice).value)], rest)
  {
    assert ([name, choice] + rest)[2..] == rest;
  }

  /** A new field with enumeration values is appended, typed `enum:`. */
  lemma EnterEnum(models: seq<Model>, fields: seq<Field>, name: string, values: string, rest: seq<string>)
    requires name != "" && !FieldTaken(fields, name) && values != ""
    ensures EnterFields(models, fields, [name, "5", values] + rest)
      == EnterFields(models, fields + [Field(name, EnumPrefix + values)], rest)
  {
    var a := [name, "5", values] + rest;
    assert a[2..][0] == values && a[2..][1..] == rest;
    assert KeywordChoice("5").None?;
  }

  /** An enumeration with no values is refused and the field skipped. */
  lemma EnterEmptyEnum(models: seq<Model>, fields: seq<Field>, name: string, rest: seq<string>)
    requires name != "" && !FieldTaken(fields, name)
    ensures EnterFields(models, fields, [name, "5", ""] + rest) == EnterFields(models, fields, rest)
  {
    var a := [name, "5", ""] + rest;
    assert a[2..][0] == "" && a[2..][1..] == rest;
    assert KeywordChoice("5").None?;
  }

  /** A new field referring to a model picked from the menu is appended,
      typed `foreign:`. */
  lemma EnterForeign(models: seq<Model>, fields: seq<Field>, name: string, pick: string, rest: seq<string>)
    requires name != "" && !FieldTaken(fields, name) && PickModel(models, pick).Some?
    ensures EnterFields(models, fields, [name, "6", pick] + rest)
      == EnterFields(models, fields + [Field(name, ForeignPrefix + PickModel(models, pick).value)], rest)
  {
    var a := [name, "6", pick] + rest;
    assert a[2..][0] == pick && a[2..][1..] == rest;
    assert KeywordChoice("6").None?;
    assert "6" != "5";
  }

  /** A name already present is refused without asking for a type. */
  lemma EnterTaken(models: seq<Model>, fields: seq<Field>, name: string, rest: seq<string>)
    requires name != "" && FieldTaken(fields, name)
    ensures EnterFields(models, fields, [name] + rest) == EnterFields(models, fields, rest)
  {
    assert ([name] + rest)[1..] == rest;
  }

  /** A blank name ends the loop. */
  lemma EnterBlank(models: seq<Model>, fields: seq<Field>, rest: seq<string>)
    ensures EnterFields(models, fields, [""] + rest) == Finished(fields, rest)
  {
    assert ([""] + rest)[1..] == rest;
  }

  /** A session against a registry holding `User`: `id` is refused as
      taken, an enumeration with no values is refused, and the rest are
      added in the order entered; `S` runs the generators. */
  lemma ProductSession()
    ensures
      AddModel([Model("User", SeedFields)],
        ["Product"]
        + (["name", "1"]
        + (["id"]
        + (["price", "2"]
        + (["status", "5", ""]
        + (["status", "5", "on|off"]
        + (["owner", "6", "1"]
        + ([""] + ["S"]))))))))
      == Added([Model("User", SeedFields)]
        + [Model("Product", SeedFields + [Field("name", "string")] + [Field("price", "number")]
                            + [Field("status", EnumPrefix + "on|off")] + [Field("owner", ForeignPrefix + "User")])],
        true)
  {
    var ms := [Model("User", SeedFields)];
    var f0 := SeedFields;
    var f1 := f0 + [Field("name", "string")];
    var f2 := f1 + [Field("price", "number")];
    var f3 := f2 + [Field("status", EnumPrefix + "on|off")];
    var f4 := f3 + [Field("owner", ForeignPrefix + "User")];
    var r5 := ["S"];
    var r4 := [""] + r5;
    var r3 := ["owner", "6", "1"] + r4;
    var r2 := ["status", "5", "on|off"] + r3;
    var r1 := ["status", "5", ""] + r2;
    var r0 := ["price", "2"] + r1;
    var rid := ["id"] + r0;
    var a := ["name", "1"] + rid;
    ProductIsNew(ms);
    MenuFirstChoice(ms);
    SessionFieldsFree();
    EnterBlank(ms, f4, r5);
    EnterForeign(ms, f3, "owner", "1", r4);
    EnterEnum(ms, f2, "status", "on|off", r3);
    EnterEmptyEnum(ms, f2, "status", r2);
    EnterKeyword(ms, f1, "price", "2", r1);
    EnterTaken(ms, f1, "id", r0);
    EnterKeyword(ms, f0, "name", "1", rid);
    assert (["Product"] + a)[0] == "Product" && (["Product"] + a)[1..] == a;
    AddModelSync(ms, ["Product"] + a, f4, r5);
  }

  /** `Product` is a fresh, well-formed model name for the session above. */
  lemma ProductIsNew(ms: seq<Model>)
    requires ms == [Model("User", SeedFields)]
    ensures IsPascalCase("Product") && "Product" !in ModelNames(ms)
  {
    assert ModelNames(ms) == ["User"];
  }

  /** Answering `1` at the model menu picks the first model. */
  lemma MenuFirstChoice(ms: seq<Model>)
    requires |ms| > 0
    ensures PickModel(ms, "1") == Some(ms[0].name)
  {
    ParseOne();
  }

  lemma ParseOne()
    ensures ParseInt("1") == Some(1)
  {
    var s := "1";
    assert s[0] == '1' && !IsJsWhitespace(s[0]);
    assert TrimStart(s) == s;
    assert ParseSigned(s) == ParseUnsigned(s);
    assert DigitPrefix(s[1..], false) == "";
    assert DigitPrefix(s, false) == "1";
    assert DigitsValue("1", 10) == DigitsValue("", 10) * 10 + DigitValue('1');
  }

  lemma SessionFieldsFree()
    ensures
      var f1 := SeedFields + [Field("name", "string")];
      var f2 := f1 + [Field("price", "number")];
      var f3 := f2 + [Field("status", EnumPrefix + "on|off")];
      && !FieldTaken(SeedFields, "name") && FieldTaken(f1, "id") && !FieldTaken(f1, "price")
      && !FieldTaken(f2, "status") && !FieldTaken(f3, "owner")
  {
    var f1 := SeedFields + [Field("name", "string")];
    var f2 := f1 + [Field("price", "number")];
    var f3 := f2 + [Field("status", EnumPrefix + "on|off")];
    assert FieldNames(SeedFields) == ["id", "tenantId"];
    ShortNameNotInherited("name");
    ShortNameNotInherited("price");
    ShortNameNotInherited("status");
    ShortNameNotInherited("owner");
    assert FieldNames(f1)[0] == "id";
    NewFieldName(SeedFields, Field("name", "string"), "price");
    NewFieldName(SeedFields, Field("name", "string"), "status");
    NewFieldName(SeedFields, Field("name", "string"), "owner");
    NewFieldName(f1, Field("price", "number"), "status");
    NewFieldName(f1, Field("price", "number"), "owner");
    NewFieldName(f2, Field("status", EnumPrefix + "on|off"), "owner");
  }

  /** A name not yet taken stays free when a field of another name is added. */
  lemma NewFieldName(fields: seq<Field>, f: Field, name: string)
    requires !FieldTaken(fields, name) && name != f.name
    ensures !FieldTaken(fields + [f], name)
  {
    assert FieldNames(fields + [f]) == FieldNames(fields) + [f.name];
  }
}
