/** The state of the game form hook (useGameForm.ts): the local list of
    questions with the add, remove and update handlers, the two flags that decide
    whether closing asks for confirmation, and the FormData `onSubmit` sends to
    the server actions. A question is whatever JSON object the list holds; the
    handlers rebuild objects with spread, which keeps the members in order and
    overrides the one named. */
module GameForm {
  import opened Wrappers
  import opened JsNumber
  import opened JsonCodec
  import opened GameActions

  /** `{ ...value }`: the members of an object, none for any other value. */
  function Spread(value: Json): seq<Field> {
    if value.JObj? then value.fields else []
  }

  /** Every member named `key` gets the value. */
  function Replace(fields: seq<Field>, key: string, value: Json): (r: seq<Field>)
    ensures |r| == |fields|
  {
    if fields == [] then []
    else
      var last := fields[|fields| - 1];
      Replace(fields[..|fields| - 1], key, value)
      + [if last.key == key then Field(key, value) else last]
  }

  lemma {:induction false} ReplaceGet(fields: seq<Field>, key: string, value: Json, k: string)
    ensures Get(Replace(fields, key, value), k) ==
      if k != key then Get(fields, k)
      else if Get(fields, key).Some? then Some(value) else None
  {
    if fields != [] {
      var init := fields[..|fields| - 1];
      ReplaceGet(init, key, value, k);
      var r := Replace(fields, key, value);
      assert r[..|r| - 1] == Replace(init, key, value);
    }
  }

  /** `{ ...object, [key]: value }`: an existing member keeps its place, a new one
      comes last. */
  function SetMember(fields: seq<Field>, key: string, value: Json): (r: seq<Field>)
    ensures Get(r, key) == Some(value)
    ensures forall k :: k != key ==> Get(r, k) == Get(fields, k)
  {
    if Get(fields, key).Some? then
      (forall k ensures Get(Replace(fields, key, value), k) ==
         if k != key then Get(fields, k) else Some(value) {
         ReplaceGet(fields, key, value, k);
       }
       Replace(fields, key, value))
    else
      assert forall k :: k != key ==> Get(fields + [Field(key, value)], k) == Get(fields, k) by {
        forall k | k != key ensures Get(fields + [Field(key, value)], k) == Get(fields, k) {
          assert (fields + [Field(key, value)])[..|fields|] == fields;
        }
      }
      fields + [Field(key, value)]
  }

  /** The `index` member a question at position k carries. */
  function IndexValue(k: int): Json {
    JNum(IntLexeme(k))
  }

  /** Every question is an object whose `index` is its position. */
  predicate Indexed(qs: seq<Json>) {
    forall k :: 0 <= k < |qs| ==> qs[k].JObj? && Get(qs[k].fields, "index") == Some(IndexValue(k))
  }

  /** Two questions that agree on every member but `index`. */
  ghost predicate SameApartFromIndex(a: Json, b: Json) {
    forall key :: key != "index" ==> Get(Spread(a), key) == Get(Spread(b), key)
  }

  /** `game?.lat || 0`, and the same for `lng`. */
  function GameNumber(game: Option<Json>, key: string): Json {
    if game.Some? && Member(game.value, key).Some? && Truthy(Member(game.value, key).value)
    then Member(game.value, key).value
    else JNum("0")
  }

  /** An object literal's next member. */
  function With(fs: seq<Field>, key: string, value: Json): seq<Field> {
    fs + [Field(key, value)]
  }

  /** The member just added is found, and every other lookup is as before. */
  lemma WithGet(fs: seq<Field>, key: string, value: Json, k: string)
    ensures Get(With(fs, key, value), k) == if k == key then Some(value) else Get(fs, k)
  {
    assert With(fs, key, value)[..|fs|] == fs;
  }

  /** The members of a new question up to its index. */
  function QuestionHead(name: Json, index: Json): seq<Field> {
    With(With(With(With(With([], "name", name), "text", JStr("")), "riddle", JStr("")),
      "intro", JStr("")), "index", index)
  }

  /** ... then its place and type ... */
  function QuestionPlace(name: Json, index: Json, lat: Json, lng: Json): seq<Field> {
    With(With(With(QuestionHead(name, index), "lat", lat), "lng", lng),
         "questionType", JStr("textChoices"))
  }

  /** ... then its answer ... */
  function QuestionAnswer(name: Json, index: Json, lat: Json, lng: Json): seq<Field> {
    With(With(With(With(With(QuestionPlace(name, index, lat, lng), "options", JArr([])),
      "rightAnswer", JStr("")), "rightAnswerImage", JStr("")), "questionHint", JStr("")),
      "mapImage", JStr(""))
  }

  /** ... and last its images, hints and explanation. */
  function QuestionFields(name: Json, index: Json, lat: Json, lng: Json): seq<Field> {
    With(With(With(QuestionAnswer(name, index, lat, lng), "images", JArr([])), "hints", JArr([])),
         "explanation", EmptyExplanation())
  }

  /** The empty explanation of a new question. */
  function EmptyExplanation(): Json {
    JObj(With(With(With(With([], "text", JStr("")), "images", JArr([])), "info", JStr("")),
              "infoExplanation", JStr("")))
  }

  /** The question `addQuestion` appends to a list of n. */
  function NewQuestion(n: nat, game: Option<Json>): (q: Json)
    ensures q.JObj?
  {
    JObj(QuestionFields(JStr("Objective #" + NatToString(n + 1)), IndexValue(n),
                        GameNumber(game, "lat"), GameNumber(game, "lng")))
  }

  lemma HeadMembers(name: Json, index: Json)
    ensures Get(QuestionHead(name, index), "index") == Some(index)
    ensures Get(QuestionHead(name, index), "name") == Some(name)
  {
    var h1 := With([], "name", name);
    var h2 := With(h1, "text", JStr(""));
    var h3 := With(h2, "riddle", JStr(""));
    var h4 := With(h3, "intro", JStr(""));
    WithGet(h4, "index", index, "index");
    WithGet(h4, "index", index, "name");
    WithGet(h3, "intro", JStr(""), "name");
    WithGet(h2, "riddle", JStr(""), "name");
    WithGet(h1, "text", JStr(""), "name");
    WithGet([], "name", name, "name");
  }

  /** A member of the head is found unchanged once the place is added. */
  lemma PlaceGet(name: Json, index: Json, lat: Json, lng: Json, k: string)
    requires k != "lat" && k != "lng"
    ensures Get(QuestionPlace(name, index, lat, lng), k) ==
      if k == "questionType" then Some(JStr("textChoices")) else Get(QuestionHead(name, index), k)
  {
    var h := QuestionHead(name, index);
    var p1 := With(h, "lat", lat);
    var p2 := With(p1, "lng", lng);
    WithGet(p2, "questionType", JStr("textChoices"), k);
    WithGet(p1, "lng", lng, k);
    WithGet(h, "lat", lat, k);
  }

  lemma PlaceMembers(name: Json, index: Json, lat: Json, lng: Json)
    ensures Get(QuestionPlace(name, index, lat, lng), "index") == Some(index)
    ensures Get(QuestionPlace(name, index, lat, lng), "name") == Some(name)
    ensures Get(QuestionPlace(name, index, lat, lng), "questionType") == Some(JStr("textChoices"))
  {
    HeadMembers(name, index);
    PlaceGet(name, index, lat, lng, "index");
    PlaceGet(name, index, lat, lng, "name");
    PlaceGet(name, index, lat, lng, "questionType");
  }

  /** A member of the place is found unchanged once the answer is added. */
  lemma AnswerGet(name: Json, index: Json, lat: Json, lng: Json, k: string)
    requires k != "rightAnswer" && k != "rightAnswerImage" && k != "questionHint" && k != "mapImage"
    ensures Get(QuestionAnswer(name, index, lat, lng), k) ==
      if k == "options" then Some(JArr([])) else Get(QuestionPlace(name, index, lat, lng), k)
  {
    var p := QuestionPlace(name, index, lat, lng);
    var a1 := With(p, "options", JArr([]));
    var a2 := With(a1, "rightAnswer", JStr(""));
    var a3 := With(a2, "rightAnswerImage", JStr(""));
    var a4 := With(a3, "questionHint", JStr(""));
    WithGet(a4, "mapImage", JStr(""), k);
    WithGet(a3, "questionHint", JStr(""), k);
    WithGet(a2, "rightAnswerImage", JStr(""), k);
    WithGet(a1, "rightAnswer", JStr(""), k);
    WithGet(p, "options", JArr([]), k);
  }

  lemma AnswerMembers(name: Json, index: Json, lat: Json, lng: Json)
    ensures Get(QuestionAnswer(name, index, lat, lng), "index") == Some(index)
    ensures Get(QuestionAnswer(name, index, lat, lng), "name") == Some(name)
    ensures Get(QuestionAnswer(name, index, lat, lng), "questionType") == Some(JStr("textChoices"))
    ensures Get(QuestionAnswer(name, index, lat, lng), "options") == Some(JArr([]))
  {
    PlaceMembers(name, index, lat, lng);
    AnswerGet(name, index, lat, lng, "index");
    AnswerGet(name, index, lat, lng, "name");
    AnswerGet(name, index, lat, lng, "questionType");
    AnswerGet(name, index, lat, lng, "options");
  }

  /** A member of the answer is found unchanged once the last members are added. */
  lemma FieldsGet(name: Json, index: Json, lat: Json, lng: Json, k: string)
    requires k != "explanation"
    ensures Get(QuestionFields(name, index, lat, lng), k) ==
      if k == "hints" || k == "images" then Some(JArr([]))
      else Get(QuestionAnswer(name, index, lat, lng), k)
  {
    var a := QuestionAnswer(name, index, lat, lng);
    var f1 := With(a, "images", JArr([]));
    var f2 := With(f1, "hints", JArr([]));
    WithGet(f2, "explanation", EmptyExplanation(), k);
    WithGet(f1, "hints", JArr([]), k);
    WithGet(a, "images", JArr([]), k);
  }

  lemma FieldsMembers(name: Json, index: Json, lat: Json, lng: Json)
    ensures var fs := QuestionFields(name, index, lat, lng);
      && Get(fs, "index") == Some(index)
      && Get(fs, "name") == Some(name)
      && Get(fs, "questionType") == Some(JStr("textChoices"))
      && Get(fs, "options") == Some(JArr([]))
      && Get(fs, "hints") == Some(JArr([]))
      && Get(fs, "images") == Some(JArr([]))
  {
    AnswerMembers(name, index, lat, lng);
    FieldsGet(name, index, lat, lng, "index");
    FieldsGet(name, index, lat, lng, "name");
    FieldsGet(name, index, lat, lng, "questionType");
    FieldsGet(name, index, lat, lng, "options");
    FieldsGet(name, index, lat, lng, "hints");
    FieldsGet(name, index, lat, lng, "images");
  }

  lemma NewQuestionIndex(n: nat, game: Option<Json>)
    ensures Get(NewQuestion(n, game).fields, "index") == Some(IndexValue(n))
  {
    FieldsMembers(JStr("Objective #" + NatToString(n + 1)), IndexValue(n),
                  GameNumber(game, "lat"), GameNumber(game, "lng"));
  }

  /** The new question's name, type and empty lists. */
  lemma NewQuestionShape(n: nat, game: Option<Json>)
    ensures var fs := NewQuestion(n, game).fields;
      && Get(fs, "name") == Some(JStr("Objective #" + NatToString(n + 1)))
      && Get(fs, "questionType") == Some(JStr("textChoices"))
      && Get(fs, "options") == Some(JArr([]))
      && Get(fs, "hints") == Some(JArr([]))
      && Get(fs, "images") == Some(JArr([]))
  {
    FieldsMembers(JStr("Objective #" + NatToString(n + 1)), IndexValue(n),
                  GameNumber(game, "lat"), GameNumber(game, "lng"));
  }

  /** Appending a question whose index is the old length keeps positions and indices
      in step. */
  lemma AppendIndexed(qs: seq<Json>, q: Json)
    requires Indexed(qs) && q.JObj? && Get(q.fields, "index") == Some(IndexValue(|qs|))
    ensures Indexed(qs + [q])
  {
    var r := qs + [q];
    forall k | 0 <= k < |r| ensures r[k].JObj? && Get(r[k].fields, "index") == Some(IndexValue(k)) {
      if k < |qs| { assert r[k] == qs[k]; }
    }
  }

  lemma AddKeepsIndexed(qs: seq<Json>, game: Option<Json>)
    ensures Indexed(qs) ==> Indexed(qs + [NewQuestion(|qs|, game)])
  {
    if Indexed(qs) {
      NewQuestionIndex(|qs|, game);
      AppendIndexed(qs, NewQuestion(|qs|, game));
    }
  }

  /** `filter((_, i) => i !== index)`. */
  function Without(qs: seq<Json>, index: int): (r: seq<Json>)
    ensures 0 <= index < |qs| ==> |r| == |qs| - 1
    ensures !(0 <= index < |qs|) ==> r == qs
    ensures 0 <= index < |qs| ==>
      forall k :: 0 <= k < |r| ==> r[k] == if k < index then qs[k] else qs[k + 1]
  {
    if 0 <= index < |qs| then qs[..index] + qs[index + 1..] else qs
  }

  /** `map((q, i) => ({ ...q, index: i }))`. */
  function Renumber(qs: seq<Json>): (r: seq<Json>)
    ensures |r| == |qs|
  {
    seq(|qs|, i requires 0 <= i < |qs| => JObj(SetMember(Spread(qs[i]), "index", IndexValue(i))))
  }

  /** Renumbering makes every index its position and changes no other member. */
  lemma RenumberIndexed(qs: seq<Json>)
    ensures Indexed(Renumber(qs))
    ensures forall k :: 0 <= k < |qs| ==> SameApartFromIndex(Renumber(qs)[k], qs[k])
  {
  }

  /** `removeQuestion(index)`: exactly the question at `index` goes, the others keep
      their order and members, and each index becomes its new position. */
  lemma RemoveQuestionSpec(qs: seq<Json>, index: int)
    requires 0 <= index < |qs|
    ensures var r := Renumber(Without(qs, index));
      && |r| == |qs| - 1
      && Indexed(r)
      && (forall k :: 0 <= k < index ==> SameApartFromIndex(r[k], qs[k]))
      && (forall k :: index <= k < |r| ==> SameApartFromIndex(r[k], qs[k + 1]))
  {
    var w := Without(qs, index);
    RenumberIndexed(w);
    var r := Renumber(w);
    forall k | 0 <= k < |r|
      ensures SameApartFromIndex(r[k], if k < index then qs[k] else qs[k + 1])
    {
      assert SameApartFromIndex(r[k], w[k]);
    }
  }

  /** `{ ...updated[index], [field]: value }` in place of the question at `index`. */
  function Updated(qs: seq<Json>, index: nat, field: string, value: Json): (r: seq<Json>)
    requires index < |qs|
    ensures |r| == |qs|
    ensures forall k :: 0 <= k < |qs| && k != index ==> r[k] == qs[k]
    ensures r[index].JObj? && Get(r[index].fields, field) == Some(value)
    ensures forall key :: key != field ==> Get(r[index].fields, key) == Get(Spread(qs[index]), key)
  {
    qs[index := JObj(SetMember(Spread(qs[index]), field, value))]
  }

  /** An update of any member but `index` keeps the indices. */
  lemma UpdateKeepsIndexed(qs: seq<Json>, index: nat, field: string, value: Json)
    requires Indexed(qs) && index < |qs| && field != "index"
    ensures Indexed(Updated(qs, index, field, value))
  {
    var r := Updated(qs, index, field, value);
    forall k | 0 <= k < |r| ensures r[k].JObj? && Get(r[k].fields, "index") == Some(IndexValue(k)) {
      if k == index {
        assert Get(r[k].fields, "index") == Get(Spread(qs[k]), "index");
      } else {
        assert r[k] == qs[k];
      }
    }
  }

  /** How a submission ended: saved, refused with the action's error, or an exception. */
  datatype Settlement = Saved | Refused(message: string) | Threw

  const UnexpectedError := "An unexpected error occurred. Please try again."

  /** A value of the validated form: a string, a number, a boolean or a list of strings. */
  datatype FormValue = Text(text: string) | Number(number: real) | Flag(flag: bool)
                     | Strings(items: seq<string>)

  /** One entry of the validated form values, as `Object.entries` yields them. */
  datatype Entry = Entry(key: string, value: FormValue)

  /** `Array.isArray(value) ? JSON.stringify(value) : String(value)`. */
  function EncodeValue(value: FormValue): (r: string)
    ensures value.Text? ==> r == value.text
    ensures value.Flag? ==> r == if value.flag then "true" else "false"
    ensures value.Number? ==> r == NumberToString(value.number)
    ensures value.Strings? ==> ParseArrayInput(Some(r)) == value.items
  {
    match value
    case Text(text) => text
    case Number(x) => NumberToString(x)
    case Flag(b) => if b then "true" else "false"
    case Strings(items) => ParseArrayOfStrings(items); Serialize(StringArray(items))
  }

  /** The FormData after `fd.set` for each entry in turn: later entries win. */
  function Encoded(entries: seq<Entry>): FormData {
    if entries == [] then map[]
    else
      var last := entries[|entries| - 1];
      Encoded(entries[..|entries| - 1])[last.key := EncodeValue(last.value)]
  }

  /** The validated values of the form, as its fields hold them. */
  datatype FormValues = FormValues(
    title: string, description: string, difficulty: string,
    duration: int, price: int, maxPlayers: int, minPlayers: int,
    thumbnail: string, images: seq<string>, isActive: bool, tags: seq<string>)

  /** The next entry. */
  function Then(es: seq<Entry>, key: string, value: FormValue): (r: seq<Entry>)
    ensures Encoded(r) == Encoded(es)[key := EncodeValue(value)]
  {
    var r := es + [Entry(key, value)];
    assert r[..|r| - 1] == es;
    r
  }

  /** The entries of the resolver's output, in schema order, for the values of the
      eleven keys. */
  function SchemaEntries(title: FormValue, description: FormValue, difficulty: FormValue, duration: FormValue,
      price: FormValue, maxPlayers: FormValue, minPlayers: FormValue, thumbnail: FormValue,
      images: FormValue, isActive: FormValue, tags: FormValue): seq<Entry>
  {
    var text := Then(Then(Then([], "title", title), "description", description),
                     "difficulty", difficulty);
    var numbers := Then(Then(Then(Then(text, "duration", duration), "price", price),
                     "maxPlayers", maxPlayers), "minPlayers", minPlayers);
    Then(Then(Then(Then(numbers, "thumbnail", thumbnail), "images", images),
         "isActive", isActive), "tags", tags)
  }

  /** The entries of the validated values. */
  function Entries(v: FormValues): seq<Entry> {
    SchemaEntries(Text(v.title), Text(v.description), Text(v.difficulty),
                  Number(v.duration as real), Number(v.price as real), Number(v.maxPlayers as real),
                  Number(v.minPlayers as real), Text(v.thumbnail), Strings(v.images),
                  Flag(v.isActive), Strings(v.tags))
  }

  /** An integer sent as text is read back as the same number. */
  lemma NumberSurvives(n: int)
    ensures NumberOrZero(Some(EncodeValue(Number(n as real)))) == n as real
  {
    NumberToStringRoundTrip(n);
  }

  /** The FormData with each of the eleven keys set to the given text. */
  function SchemaForm(title: string, description: string, difficulty: string, duration: string,
      price: string, maxPlayers: string, minPlayers: string, thumbnail: string,
      images: string, isActive: string, tags: string): FormData {
    map["title" := title, "description" := description, "difficulty" := difficulty,
        "duration" := duration, "price" := price, "maxPlayers" := maxPlayers,
        "minPlayers" := minPlayers, "thumbnail" := thumbnail, "images" := images,
        "isActive" := isActive, "tags" := tags]
  }

  /** Setting the entries one after the other builds exactly that FormData, with each
      value's text. */
  lemma EncodedSchema(title: FormValue, description: FormValue, difficulty: FormValue, duration: FormValue,
      price: FormValue, maxPlayers: FormValue, minPlayers: FormValue, thumbnail: FormValue,
      images: FormValue, isActive: FormValue, tags: FormValue)
    ensures Encoded(SchemaEntries(title, description, difficulty, duration, price, maxPlayers, minPlayers, thumbnail, images, isActive, tags))
         == SchemaForm(EncodeValue(title), EncodeValue(description), EncodeValue(difficulty), EncodeValue(duration), EncodeValue(price), EncodeValue(maxPlayers), EncodeValue(minPlayers), EncodeValue(thumbnail), EncodeValue(images), EncodeValue(isActive), EncodeValue(tags))
  {
  }

  /** Each key of the FormData reads back its own text. */
  lemma SchemaFormGet(title: string, description: string, difficulty: string, duration: string,
      price: string, maxPlayers: string, minPlayers: string, thumbnail: string,
      images: string, isActive: string, tags: string)
    ensures var fd := SchemaForm(title, description, difficulty, duration, price, maxPlayers, minPlayers, thumbnail, images, isActive, tags);
      && FormGet(fd, "title") == Some(title) && FormGet(fd, "description") == Some(description)
      && FormGet(fd, "difficulty") == Some(difficulty) && FormGet(fd, "duration") == Some(duration)
      && FormGet(fd, "price") == Some(price) && FormGet(fd, "maxPlayers") == Some(maxPlayers)
      && FormGet(fd, "minPlayers") == Some(minPlayers) && FormGet(fd, "thumbnail") == Some(thumbnail)
      && FormGet(fd, "images") == Some(images) && FormGet(fd, "isActive") == Some(isActive)
      && FormGet(fd, "tags") == Some(tags)
  {
  }

  /** `String(b)` for a boolean. */
  function BoolText(b: bool): string {
    if b then "true" else "false"
  }

  /** The FormData of the validated values: each value's text under its key. */
  lemma EntriesForm(v: FormValues)
    ensures Encoded(Entries(v)) ==
      SchemaForm(v.title, v.description, v.difficulty,
                 NumberToString(v.duration as real), NumberToString(v.price as real),
                 NumberToString(v.maxPlayers as real), NumberToString(v.minPlayers as real),
                 v.thumbnail, Serialize(StringArray(v.images)), BoolText(v.isActive),
                 Serialize(StringArray(v.tags)))
  {
    EncodedSchema(Text(v.title), Text(v.description), Text(v.difficulty),
                  Number(v.duration as real), Number(v.price as real), Number(v.maxPlayers as real),
                  Number(v.minPlayers as real), Text(v.thumbnail), Strings(v.images),
                  Flag(v.isActive), Strings(v.tags));
  }

  /** The lookups of the eleven keys the resolver's output produces. */
  lemma EncodedEntries(v: FormValues)
    ensures var fd := Encoded(Entries(v));
      && FormGet(fd, "title") == Some(v.title) && FormGet(fd, "description") == Some(v.description)
      && FormGet(fd, "difficulty") == Some(v.difficulty) && FormGet(fd, "thumbnail") == Some(v.thumbnail)
      && FormGet(fd, "duration") == Some(NumberToString(v.duration as real))
      && FormGet(fd, "price") == Some(NumberToString(v.price as real))
      && FormGet(fd, "maxPlayers") == Some(NumberToString(v.maxPlayers as real))
      && FormGet(fd, "minPlayers") == Some(NumberToString(v.minPlayers as real))
      && FormGet(fd, "images") == Some(Serialize(StringArray(v.images)))
      && FormGet(fd, "isActive") == Some(BoolText(v.isActive))
      && FormGet(fd, "tags") == Some(Serialize(StringArray(v.tags)))
  {
    EntriesForm(v);
    SchemaFormGet(v.title, v.description, v.difficulty,
                  NumberToString(v.duration as real), NumberToString(v.price as real),
                  NumberToString(v.maxPlayers as real), NumberToString(v.minPlayers as real),
                  v.thumbnail, Serialize(StringArray(v.images)), BoolText(v.isActive),
                  Serialize(StringArray(v.tags)));
  }

  /** Setting `questions` last leaves the eleven keys as they were. */
  lemma QuestionsLast(fd: FormData, q: string)
    ensures var sent := fd["questions" := q];
      && FormGet(sent, "questions") == Some(q)
      && FormGet(sent, "title") == FormGet(fd, "title")
      && FormGet(sent, "description") == FormGet(fd, "description")
      && FormGet(sent, "difficulty") == FormGet(fd, "difficulty")
      && FormGet(sent, "duration") == FormGet(fd, "duration")
      && FormGet(sent, "price") == FormGet(fd, "price")
      && FormGet(sent, "maxPlayers") == FormGet(fd, "maxPlayers")
      && FormGet(sent, "minPlayers") == FormGet(fd, "minPlayers")
      && FormGet(sent, "thumbnail") == FormGet(fd, "thumbnail")
      && FormGet(sent, "images") == FormGet(fd, "images")
      && FormGet(sent, "isActive") == FormGet(fd, "isActive")
      && FormGet(sent, "tags") == FormGet(fd, "tags")
  {
  }

  /** The four integers are read back from their text. */
  lemma NumbersRead(fd: FormData, v: FormValues)
    requires FormGet(fd, "duration") == Some(NumberToString(v.duration as real))
    requires FormGet(fd, "price") == Some(NumberToString(v.price as real))
    requires FormGet(fd, "maxPlayers") == Some(NumberToString(v.maxPlayers as real))
    requires FormGet(fd, "minPlayers") == Some(NumberToString(v.minPlayers as real))
    ensures NumberOrZero(FormGet(fd, "duration")) == v.duration as real
    ensures NumberOrZero(FormGet(fd, "price")) == v.price as real
    ensures NumberOrZero(FormGet(fd, "maxPlayers")) == v.maxPlayers as real
    ensures NumberOrZero(FormGet(fd, "minPlayers")) == v.minPlayers as real
  {
    NumberSurvives(v.duration);
    NumberSurvives(v.price);
    NumberSurvives(v.maxPlayers);
    NumberSurvives(v.minPlayers);
  }

  /** The two string lists and the question list are read back from their JSON text. */
  lemma ListsRead(fd: FormData, v: FormValues, questions: seq<Json>)
    requires WellFormed(JArr(questions))
    requires FormGet(fd, "images") == Some(Serialize(StringArray(v.images)))
    requires FormGet(fd, "tags") == Some(Serialize(StringArray(v.tags)))
    requires FormGet(fd, "questions") == Some(Serialize(JArr(questions)))
    ensures ParseArrayInput(FormGet(fd, "images")) == v.images
    ensures ParseArrayInput(FormGet(fd, "tags")) == v.tags
    ensures ParseQuestions(FormGet(fd, "questions")) == questions
  {
    ParseArrayOfStrings(v.images);
    ParseArrayOfStrings(v.tags);
    ParseSerialize(JArr(questions));
    SerializeStart(JArr(questions));
  }

  /** What `extractGameData` reads from a FormData that holds the texts the form sends,
      with `questions` set last. */
  lemma ExtractSent(fd: FormData, v: FormValues, questions: seq<Json>)
    requires WellFormed(JArr(questions))
    requires FormGet(fd, "title") == Some(v.title) && FormGet(fd, "description") == Some(v.description)
    requires FormGet(fd, "difficulty") == Some(v.difficulty) && FormGet(fd, "thumbnail") == Some(v.thumbnail)
    requires FormGet(fd, "duration") == Some(NumberToString(v.duration as real))
    requires FormGet(fd, "price") == Some(NumberToString(v.price as real))
    requires FormGet(fd, "maxPlayers") == Some(NumberToString(v.maxPlayers as real))
    requires FormGet(fd, "minPlayers") == Some(NumberToString(v.minPlayers as real))
    requires FormGet(fd, "images") == Some(Serialize(StringArray(v.images)))
    requires FormGet(fd, "isActive") == Some(BoolText(v.isActive))
    requires FormGet(fd, "tags") == Some(Serialize(StringArray(v.tags)))
    ensures var d := ExtractGameData(fd["questions" := Serialize(JArr(questions))]);
      && d.title == Some(v.title) && d.description == Some(v.description)
      && d.difficulty == Some(v.difficulty) && d.thumbnail == Some(v.thumbnail)
      && d.duration == v.duration as real && d.price == v.price as real
      && d.maxPlayers == v.maxPlayers as real && d.minPlayers == v.minPlayers as real
      && d.images == v.images && d.isActive == v.isActive && d.tags == v.tags
      && d.questions == questions
  {
    var sent := fd["questions" := Serialize(JArr(questions))];
    QuestionsLast(fd, Serialize(JArr(questions)));
    NumbersRead(sent, v);
    ListsRead(sent, v, questions);
  }

  /** What the server reads from what the form sends: the text fields, integer numbers,
      the string arrays, `isActive` and the question list all come back unchanged. */
  lemma SubmissionRoundTrip(v: FormValues, questions: seq<Json>)
    requires WellFormed(JArr(questions))
    ensures var d := ExtractGameData(Encoded(Entries(v))["questions" := Serialize(JArr(questions))]);
      && d.title == Some(v.title) && d.description == Some(v.description)
      && d.difficulty == Some(v.difficulty) && d.thumbnail == Some(v.thumbnail)
      && d.duration == v.duration as real && d.price == v.price as real
      && d.maxPlayers == v.maxPlayers as real && d.minPlayers == v.minPlayers as real
      && d.images == v.images && d.isActive == v.isActive && d.tags == v.tags
      && d.questions == questions
  {
    EncodedEntries(v);
    ExtractSent(Encoded(Entries(v)), v, questions);
  }

  /** `onSubmit`'s FormData: each entry set in turn, then `questions` from the local list. */
  method EncodeSubmission(entries: seq<Entry>, questions: seq<Json>) returns (fd: FormData)
    ensures fd == Encoded(entries)["questions" := Serialize(JArr(questions))]
  {
    fd := map[];
    var i := 0;
    while i < |entries|
      invariant 0 <= i <= |entries|
      invariant fd == Encoded(entries[..i])
    {
      assert entries[..i + 1][..i] == entries[..i];
      fd := fd[entries[i].key := EncodeValue(entries[i].value)];
      i := i + 1;
    }
    assert entries[..|entries|] == entries;
    fd := fd["questions" := Serialize(JArr(questions))];
  }

  /** The hook's state. */
  class FormState {
    var questions: seq<Json>
    var isDirtyState: bool
    var showConfirmClose: bool
    var isLoading: bool
    var error: string

    /** The hook's first render, with `game?.questions || []`. */
    constructor(initial: seq<Json>)
      ensures questions == initial && !isDirtyState && !showConfirmClose && !isLoading && error == ""
    {
      questions := initial;
      isDirtyState := false;
      showConfirmClose := false;
      isLoading := false;
      error := "";
    }

    /** The effect run when the form opens: the game's questions, nothing dirty. */
    method Open(initial: seq<Json>)
      modifies this
      ensures questions == initial && !isDirtyState
      ensures showConfirmClose == old(showConfirmClose) && isLoading == old(isLoading) && error == old(error)
    {
      questions := initial;
      isDirtyState := false;
    }

    /** `handleAttemptClose`: closes (the result) only when neither the form nor the
        question list is dirty; otherwise asks for confirmation. */
    method HandleAttemptClose(isDirty: bool) returns (closes: bool)
      modifies this
      ensures closes <==> !isDirty && !old(isDirtyState)
      ensures showConfirmClose == (old(showConfirmClose) || !closes)
      ensures questions == old(questions) && isDirtyState == old(isDirtyState)
      ensures isLoading == old(isLoading) && error == old(error)
    {
      if !isDirty && !isDirtyState {
        closes := true;
      } else {
        showConfirmClose := true;
        closes := false;
      }
    }

    /** `handleConfirmDiscard`: both flags cleared, then the form closes. */
    method HandleConfirmDiscard()
      modifies this
      ensures !isDirtyState && !showConfirmClose
      ensures questions == old(questions) && isLoading == old(isLoading) && error == old(error)
    {
      isDirtyState := false;
      showConfirmClose := false;
    }

    /** `addQuestion`. */
    method AddQuestion(game: Option<Json>)
      modifies this
      ensures questions == old(questions) + [NewQuestion(|old(questions)|, game)]
      ensures Indexed(old(questions)) ==> Indexed(questions)
      ensures isDirtyState
      ensures showConfirmClose == old(showConfirmClose) && isLoading == old(isLoading) && error == old(error)
    {
      ghost var before := questions;
      questions := questions + [NewQuestion(|questions|, game)];
      AddKeepsIndexed(before, game);
      isDirtyState := true;
    }

    /** `removeQuestion(index)`. */
    method RemoveQuestion(index: int)
      modifies this
      ensures questions == Renumber(Without(old(questions), index))
      ensures Indexed(questions)
      ensures isDirtyState
      ensures showConfirmClose == old(showConfirmClose) && isLoading == old(isLoading) && error == old(error)
    {
      RenumberIndexed(Without(questions, index));
      questions := Renumber(Without(questions, index));
      isDirtyState := true;
    }

    /** `updateQuestion(index, field, value)`. */
    method UpdateQuestion(index: nat, field: string, value: Json)
      requires index < |questions|
      modifies this
      ensures questions == Updated(old(questions), index, field, value)
      ensures Indexed(old(questions)) && field != "index" ==> Indexed(questions)
      ensures isDirtyState
      ensures showConfirmClose == old(showConfirmClose) && isLoading == old(isLoading) && error == old(error)
    {
      if Indexed(questions) && field != "index" {
        UpdateKeepsIndexed(questions, index, field, value);
      }
      questions := Updated(questions, index, field, value);
      isDirtyState := true;
    }

    /** `onSubmit` up to the server call: loading, no error, and the FormData to send. */
    method BeginSubmit(entries: seq<Entry>) returns (fd: FormData)
      modifies this
      ensures isLoading && error == ""
      ensures fd == Encoded(entries)["questions" := Serialize(JArr(questions))]
      ensures questions == old(questions) && isDirtyState == old(isDirtyState)
      ensures showConfirmClose == old(showConfirmClose)
    {
      isLoading := true;
      error := "";
      fd := EncodeSubmission(entries, questions);
    }

    /** The rest of `onSubmit`: an error is shown, or the form closes (the result). */
    method Settle(outcome: Settlement) returns (closes: bool)
      modifies this
      ensures closes <==> outcome.Saved?
      ensures outcome.Refused? ==> error == outcome.message
      ensures outcome.Threw? ==> error == UnexpectedError
      ensures outcome.Saved? ==> error == old(error)
      ensures !isLoading
      ensures questions == old(questions) && isDirtyState == old(isDirtyState)
      ensures showConfirmClose == old(showConfirmClose)
    {
      match outcome {
        case Saved => closes := true;
        case Refused(message) => error := message; closes := false;
        case Threw => error := UnexpectedError; closes := false;
      }
      isLoading := false;
    }
  }
}
