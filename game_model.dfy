/** The Game document of models/Game.ts: its fields, the casting Mongoose
    applies before validating (the `trim` setter on the title and the three
    defaults), the per-path validators in schema order, and the text of the
    ValidationError they raise. */
module GameModel {
  import opened Wrappers
  import opened JsString
  import opened ModelErrors

  datatype Difficulty = Easy | Medium | Hard | Expert

  const DifficultyNames: seq<string> := ["Easy", "Medium", "Hard", "Expert"]

  function DifficultyName(d: Difficulty): (s: string)
    ensures s in DifficultyNames
  {
    match d
    case Easy => "Easy"
    case Medium => "Medium"
    case Hard => "Hard"
    case Expert => "Expert"
  }

  /** Membership in the enum `['Easy', 'Medium', 'Hard', 'Expert']`. */
  function ParseDifficulty(s: string): (r: Option<Difficulty>)
    ensures r.Some? <==> s in DifficultyNames
    ensures r.Some? ==> DifficultyName(r.value) == s
  {
    if s == "Easy" then Some(Easy)
    else if s == "Medium" then Some(Medium)
    else if s == "Hard" then Some(Hard)
    else if s == "Expert" then Some(Expert)
    else None
  }

  lemma DifficultyRoundTrip(d: Difficulty)
    ensures ParseDifficulty(DifficultyName(d)) == Some(d)
  {
  }

  /** What a game is created or updated from: the validated schema output, in which
      `images`, `isActive` and `tags` may be absent. */
  datatype GameInput = GameInput(
    title: string, description: string, difficulty: Difficulty,
    duration: real, price: real, maxPlayers: real, minPlayers: real,
    thumbnail: string, images: Option<seq<string>>, isActive: Option<bool>,
    tags: Option<seq<string>>)

  /** The paths a Game document stores, in schema order. */
  datatype GameFields = GameFields(
    title: string, description: string, difficulty: Difficulty,
    duration: real, price: real, maxPlayers: real, minPlayers: real,
    images: seq<string>, thumbnail: string, isActive: bool, tags: seq<string>)

  /** A stored game: its id, its fields and the two timestamps (`timestamps: true`). */
  datatype Game = Game(id: nat, fields: GameFields, createdAt: int, updatedAt: int)

  /** A path's value, or its schema default when it is absent. */
  function OrDefault<T>(v: Option<T>, default: T): T {
    if v.Some? then v.value else default
  }

  /** Casting: the title goes through its `trim` setter and an absent `images`,
      `isActive` or `tags` takes its default `[]`, `true`, `[]`. */
  function Cast(input: GameInput): (f: GameFields)
    ensures f.title == Trim(input.title) && IsTrimmed(f.title)
    ensures input.images.None? ==> f.images == []
    ensures input.isActive.None? ==> f.isActive
    ensures input.tags.None? ==> f.tags == []
    ensures input.images.Some? ==> f.images == input.images.value
    ensures input.isActive.Some? ==> f.isActive == input.isActive.value
    ensures input.tags.Some? ==> f.tags == input.tags.value
    ensures f.description == input.description && f.difficulty == input.difficulty
    ensures f.duration == input.duration && f.price == input.price
    ensures f.maxPlayers == input.maxPlayers && f.minPlayers == input.minPlayers
    ensures f.thumbnail == input.thumbnail
  {
    GameFields(
      Trim(input.title), input.description, input.difficulty,
      input.duration, input.price, input.maxPlayers, input.minPlayers,
      OrDefault(input.images, []), input.thumbnail, OrDefault(input.isActive, true),
      OrDefault(input.tags, []))
  }

  /** The constraints of the schema, stated as one predicate: a required string is
      not empty, and the numeric paths meet their `min`. */
  predicate SatisfiesSchema(f: GameFields) {
    f.title != "" && f.description != "" && f.duration >= 15.0 && f.price >= 0.0
    && f.maxPlayers >= 1.0 && f.minPlayers >= 1.0 && f.thumbnail != ""
  }

  /** The validators' failures in schema order. `difficulty` is held as the enum, so
      its enum and required validators always pass. */
  function ValidationErrors(f: GameFields): (r: seq<PathError>)
    ensures r == [] <==> SatisfiesSchema(f)
    ensures |r| <= 7
  {
    Validator(f.title != "", "title", "Game title is required")
    + Validator(f.description != "", "description", "Description is required")
    + Validator(f.duration >= 15.0, "duration", "Duration must be at least 15 minutes")
    + Validator(f.price >= 0.0, "price", "Price cannot be negative")
    + Validator(f.maxPlayers >= 1.0, "maxPlayers", "Must allow at least 1 player")
    + Validator(f.minPlayers >= 1.0, "minPlayers", "Must require at least 1 player")
    + Validator(f.thumbnail != "", "thumbnail", "Thumbnail is required")
  }

  /** The message of the ValidationError: `Game validation failed` for a document
      (create, save), `Validation failed` for update validators. */
  function ValidationMessage(forUpdate: bool, errors: seq<PathError>): string {
    if forUpdate then UpdateMessage(errors) else DocumentMessage("Game", errors)
  }

  /** A title of white space only is cast to the empty string, which `required` refuses. */
  lemma BlankTitleRefused(input: GameInput)
    requires forall i :: 0 <= i < |input.title| ==> IsSpace(input.title[i])
    ensures ValidationErrors(Cast(input)) != []
    ensures ValidationErrors(Cast(input))[0] == PathError("title", "Game title is required")
  {
  }

  /** The model on its own has no cross-field check: fewer allowed than required
      players is a valid document. */
  lemma NoCrossFieldCheck()
    ensures SatisfiesSchema(GameFields("Escape", "A room", Hard, 60.0, 10.0, 2.0, 4.0, [], "x", true, []))
  {
  }
}
