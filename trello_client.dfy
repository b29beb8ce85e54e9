/** The Trello REST client of `src/trello/client.js`: one card created in the configured
    list. The response to the `POST /1/cards` request is an input. */
module TrelloClient {
  import opened Results
  import opened Strings
  import opened Http
  import Json
  import Settings
  import Task

  /** The JSON body posted: `{ idList, name, desc }` and, when there are any, `idMembers`
      and `idLabels`. */
  datatype CardBody = CardBody(idList: string, name: string, desc: string,
                               idMembers: Option<seq<string>>, idLabels: Option<seq<string>>)

  /** `{ key, url }` of the created card: `key` is whatever value the response held
      (None for `undefined`). */
  datatype Card = Card(key: Option<Json.Value>, url: Json.Value)

  const CredentialsError: string := "Trello credentials missing. Set TRELLO_API_KEY and TRELLO_TOKEN in .env. Get them at https://trello.com/app-key"
  const ListIdError: string := "Trello list ID missing. Set trello.listId in .haitaskrc (the list where cards are created)."
  const NullCardError: string := "Cannot read properties of null (reading 'shortLink')"
  const CardUrlPrefix: string := "https://trello.com/c/"

  /** `labelIds.filter((id) => typeof id === 'string' && id.trim()).map((id) => id.trim())`. */
  function LabelIds(items: seq<Json.Value>): (ids: seq<string>)
    ensures |ids| <= |items|
    ensures forall k | 0 <= k < |ids| :: ids[k] != "" && IsTrimmed(ids[k])
  {
    if items == [] then []
    else
      var head := if items[0].Str? && !Blank(items[0].s) then [Trim(items[0].s)] else [];
      head + LabelIds(items[1..])
  }

  /** Every label id kept is the trimmed form of a non-blank string of the array, and
      every such string is kept. */
  lemma {:induction false} LabelIdsSpec(items: seq<Json.Value>)
    ensures forall t :: t in LabelIds(items) <==> exists s | Json.Str(s) in items :: !Blank(s) && t == Trim(s)
  {
    if items != [] {
      LabelIdsSpec(items[1..]);
      assert items == [items[0]] + items[1..];
      forall t | t in LabelIds(items)
        ensures exists s | Json.Str(s) in items :: !Blank(s) && t == Trim(s)
      {
        if t !in LabelIds(items[1..]) {
          assert Json.Str(items[0].s) == items[0];
        }
      }
    }
  }

  /** The filter-and-trim distributes over concatenation, so the kept ids stay in the
      order of the array, repeats included. */
  lemma {:induction false} LabelIdsAppend(xs: seq<Json.Value>, ys: seq<Json.Value>)
    ensures LabelIds(xs + ys) == LabelIds(xs) + LabelIds(ys)
  {
    if xs == [] {
      assert xs + ys == ys;
    } else {
      assert (xs + ys)[1..] == xs[1..] + ys;
      LabelIdsAppend(xs[1..], ys);
    }
  }

  /** One more item adds its trimmed form at the end exactly when it is a non-blank string. */
  lemma LabelIdsSnoc(xs: seq<Json.Value>, x: Json.Value)
    ensures LabelIds(xs + [x]) == LabelIds(xs) + (if x.Str? && !Blank(x.s) then [Trim(x.s)] else [])
  {
    LabelIdsAppend(xs, [x]);
    assert [x][1..] == [];
  }

  /** The member: `trello.memberId`, else `TRELLO_MEMBER_ID`, trimmed. */
  function MemberId(config: Settings.Config, env: Settings.Env): (m: string)
    ensures !Blank(config.trello.memberId) ==> m == Trim(config.trello.memberId)
    ensures Blank(config.trello.memberId) ==> m == Trim(Settings.EnvValue(env, "TRELLO_MEMBER_ID"))
  {
    var fromConfig := Trim(config.trello.memberId);
    if fromConfig != "" then fromConfig else Trim(Settings.EnvValue(env, "TRELLO_MEMBER_ID"))
  }

  /** The body of the create request. */
  function BuildBody(payload: Task.Payload, config: Settings.Config, env: Settings.Env): (b: CardBody)
    ensures b.idList == Trim(config.trello.listId)
    ensures b.name != "" && IsTrimmed(b.name)
    ensures b.name == if Blank(payload.title) then "Untitled" else Trim(payload.title)
    ensures b.desc == Trim(payload.description)
    ensures b.idMembers.Some? <==> MemberId(config, env) != ""
    ensures b.idMembers.Some? ==> b.idMembers.value == [MemberId(config, env)]
    ensures b.idLabels.Some? <==> config.trello.labelIds.Arr? && |config.trello.labelIds.items| > 0
    ensures b.idLabels.Some? ==> b.idLabels.value == LabelIds(config.trello.labelIds.items)
  {
    var title := Trim(payload.title);
    var memberId := MemberId(config, env);
    var labelIds := config.trello.labelIds;
    CardBody(
      Trim(config.trello.listId),
      if title != "" then title else "Untitled",
      Trim(payload.description),
      if memberId != "" then Some([memberId]) else None,
      if labelIds.Arr? && |labelIds.items| > 0 then Some(LabelIds(labelIds.items)) else None)
  }

  /** The card returned for a parsed response: `card.shortLink || card.id` and
      `card.shortUrl || card.url || (key ? 'https://trello.com/c/' + key : '')`. Reading
      a member of `null` throws; any other value without the member gives `undefined`. */
  function CardOf(card: Json.Value): (c: Result<Card>)
    ensures card.Null? <==> c.Err?
    ensures c.Err? ==> c.message == NullCardError
    ensures c.Ok? && Json.Truthy(Json.Get(card, "shortLink")) ==> c.value.key == Json.Get(card, "shortLink")
    ensures c.Ok? && !Json.Truthy(Json.Get(card, "shortLink")) ==> c.value.key == Json.Get(card, "id")
    ensures c.Ok? && Json.Truthy(Json.Get(card, "shortUrl")) ==> c.value.url == card.fields["shortUrl"]
    ensures c.Ok? && !Json.Truthy(Json.Get(card, "shortUrl")) && Json.Truthy(Json.Get(card, "url")) ==>
      c.value.url == card.fields["url"]
    ensures c.Ok? && !Json.Truthy(Json.Get(card, "shortUrl")) && !Json.Truthy(Json.Get(card, "url")) ==>
      c.value.url == if Json.Truthy(c.value.key) then Json.Str(CardUrlPrefix + Json.Display(c.value.key)) else Json.Str("")
  {
    if card.Null? then Err(NullCardError)
    else
      var shortLink := Json.Get(card, "shortLink");
      var key := if Json.Truthy(shortLink) then shortLink else Json.Get(card, "id");
      var shortUrl := Json.Get(card, "shortUrl");
      var url := Json.Get(card, "url");
      var cardUrl :=
        if Json.Truthy(shortUrl) then shortUrl.value
        else if Json.Truthy(url) then url.value
        else if Json.Truthy(key) then Json.Str(CardUrlPrefix + Json.Display(key))
        else Json.Str("");
      Ok(Card(key, cardUrl))
  }

  /** A blank `TRELLO_API_KEY` or `TRELLO_TOKEN`. */
  predicate MissingCredentials(env: Settings.Env) {
    Blank(Settings.EnvValue(env, "TRELLO_API_KEY")) || Blank(Settings.EnvValue(env, "TRELLO_TOKEN"))
  }

  /** `createTask(payload, config)`, with `res` the response to the create request and
      `parse` standing for `JSON.parse`. The checks come in the order of the source:
      credentials, list id, HTTP status, JSON, `null` card. The second component is the
      body posted, present exactly when the request is made. */
  function CreateTask(payload: Task.Payload, config: Settings.Config, env: Settings.Env, res: Response,
                      parse: string -> Json.ParseOutcome): (out: (Result<Card>, Option<CardBody>))
    ensures MissingCredentials(env) ==> out == (Err(CredentialsError), None)
    ensures !MissingCredentials(env) && Blank(config.trello.listId) ==> out == (Err(ListIdError), None)
    ensures !MissingCredentials(env) && !Blank(config.trello.listId) ==> out.1 == Some(BuildBody(payload, config, env))
    ensures !MissingCredentials(env) && !Blank(config.trello.listId) && !IsOk(res) ==>
      out.0 == Err("Trello API error " + NatToString(res.status) + ": " + Detail(res))
    ensures !MissingCredentials(env) && !Blank(config.trello.listId) && IsOk(res) ==>
      out.0 == match parse(res.body)
               case SyntaxError(m) => Err(m)
               case Parsed(card) => CardOf(card)
  {
    var apiKey := Trim(Settings.EnvValue(env, "TRELLO_API_KEY"));
    var token := Trim(Settings.EnvValue(env, "TRELLO_TOKEN"));
    if apiKey == "" || token == "" then (Err(CredentialsError), None)
    else if Trim(config.trello.listId) == "" then (Err(ListIdError), None)
    else
      var sent := Some(BuildBody(payload, config, env));
      if !IsOk(res) then (Err("Trello API error " + NatToString(res.status) + ": " + Detail(res)), sent)
      else match parse(res.body)
        case SyntaxError(m) => (Err(m), sent)
        case Parsed(card) => (CardOf(card), sent)
  }

  /** A created card comes from a successful response whose body parsed to a card that
      is not `null`, after the body was posted. */
  lemma CreatedCardFromResponse(payload: Task.Payload, config: Settings.Config, env: Settings.Env, res: Response,
                                parse: string -> Json.ParseOutcome)
    requires CreateTask(payload, config, env, res, parse).0.Ok?
    ensures !MissingCredentials(env) && !Blank(config.trello.listId) && IsOk(res)
    ensures parse(res.body).Parsed? && !parse(res.body).value.Null?
    ensures CreateTask(payload, config, env, res, parse).1 == Some(BuildBody(payload, config, env))
  {
  }

  /** A truthy short link is the key, whatever else the card holds; when the card has
      neither `shortUrl` nor `url`, the card URL is the link built from it. */
  lemma ShortLinkIsKey(card: Json.Value, link: string)
    requires card.Obj? && "shortLink" in card.fields && card.fields["shortLink"] == Json.Str(link) && link != ""
    ensures CardOf(card).Ok? && CardOf(card).value.key == Some(Json.Str(link))
    ensures !Json.Truthy(Json.Get(card, "shortUrl")) && !Json.Truthy(Json.Get(card, "url")) ==>
      CardOf(card).value.url == Json.Str(CardUrlPrefix + link)
  {
  }

  /** Without `shortLink`, `shortUrl`, `url` or `id`, the card has no key and the URL is "". */
  lemma EmptyCard()
    ensures CardOf(Json.Obj(map[])) == Ok(Card(None, Json.Str("")))
  {
  }
}
