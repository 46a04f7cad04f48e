/** The decision logic of internal/line/handler.go: the postback data of
    the "remind me" button and the reminder it creates, command splitting,
    the routing of a text message, the choice between the time-window
    search and the nearest-stop search, and the three-bubble cap on the
    results. Replies are returned as values; sending them, Flex layout,
    geocoding and the model call are outside the model. */
module Handler {
  import opened Common
  import opened GoStrings
  import opened Clock
  import opened Garbage
  import opened Store
  import Nlu

  /** The webhook event source; only a user source carries an id. */
  datatype Source = UserSource(userId: string) | GroupSource | RoomSource

  // ---------------------------------------------------------------------
  // Postback data
  // ---------------------------------------------------------------------

  /** The map parsePostbackData builds from its '&'-separated pieces: a
      piece that splits on '=' into exactly two parts sets that key, later
      pieces overwriting earlier ones; other pieces are ignored. */
  function ParamsOf(pieces: seq<string>): map<string, string>
  {
    if |pieces| == 0 then map[]
    else
      var kv := Split(pieces[|pieces| - 1], '=');
      var prev := ParamsOf(pieces[..|pieces| - 1]);
      if |kv| == 2 then prev[kv[0] := kv[1]] else prev
  }

  /** The piece is "key=value" with a single '='. */
  predicate PairFor(piece: string, key: string)
  {
    var kv := Split(piece, '=');
    |kv| == 2 && kv[0] == key
  }

  /** parsePostbackData. */
  method ParsePostbackData(data: string) returns (params: map<string, string>)
    ensures params == ParamsOf(Split(data, '&'))
  {
    params := map[];
    var pieces := Split(data, '&');
    var i := 0;
    while i < |pieces|
      invariant 0 <= i <= |pieces|
      invariant params == ParamsOf(pieces[..i])
    {
      var kv := Split(pieces[i], '=');
      if |kv| == 2 {
        params := params[kv[0] := kv[1]];
      }
      assert pieces[..i + 1][..i] == pieces[..i];
      i := i + 1;
    }
    assert pieces[..i] == pieces;
  }

  /** A key is present exactly when some piece is a pair for it. */
  lemma {:induction false} ParamsOfKeys(pieces: seq<string>, key: string)
    ensures key in ParamsOf(pieces) <==> exists i :: 0 <= i < |pieces| && PairFor(pieces[i], key)
  {
    if |pieces| > 0 {
      var n := |pieces| - 1;
      var init := pieces[..n];
      ParamsOfKeys(init, key);
      if !PairFor(pieces[n], key) {
        if key in ParamsOf(pieces) {
          var i :| 0 <= i < n && PairFor(init[i], key);
          assert PairFor(pieces[i], key);
        }
        if exists i :: 0 <= i < |pieces| && PairFor(pieces[i], key) {
          var i :| 0 <= i < |pieces| && PairFor(pieces[i], key);
          assert init[i] == pieces[i];
        }
      }
    }
  }

  /** A key's value is that of the last piece that is a pair for it. */
  lemma {:induction false} ParamsOfLastPair(pieces: seq<string>, i: int, key: string)
    requires 0 <= i < |pieces| && PairFor(pieces[i], key)
    requires forall j :: i < j < |pieces| ==> !PairFor(pieces[j], key)
    ensures key in ParamsOf(pieces) && ParamsOf(pieces)[key] == Split(pieces[i], '=')[1]
  {
    var n := |pieces| - 1;
    if i < n {
      var init := pieces[..n];
      assert forall j :: i < j < n ==> init[j] == pieces[j];
      ParamsOfLastPair(init, i, key);
    }
  }

  /** The postback data of a result bubble's "remind me" button. */
  function ReminderData(routeId: string, stopName: string, eta: int): string
  {
    "route=" + routeId + "&stop=" + stopName + "&eta=" + FormatInt(eta)
  }

  /** "key=value" splits on '=' into the key and the value when neither
      holds an '='. */
  lemma SplitPair(key: string, value: string)
    requires '=' !in key && '=' !in value
    ensures Split(key + "=" + value, '=') == [key, value]
  {
    SplitLeadingPiece(key, value, '=');
    SplitWithoutSeparator(value, '=');
  }

  /** Three pieces joined by a separator none of them holds split back. */
  lemma SplitThree(a: string, b: string, c: string, sep: char)
    requires sep !in a && sep !in b && sep !in c
    ensures Split(a + [sep] + b + [sep] + c, sep) == [a, b, c]
  {
    assert a + [sep] + b + [sep] + c == a + [sep] + (b + [sep] + c);
    SplitLeadingPiece(a, b + [sep] + c, sep);
    SplitLeadingPiece(b, c, sep);
    SplitWithoutSeparator(c, sep);
  }

  /** The data of a bubble splits on '&' into its three "key=value"
      pieces. */
  lemma ReminderDataPieces(routeId: string, stopName: string, eta: int)
    requires '&' !in routeId && '&' !in stopName
    ensures Split(ReminderData(routeId, stopName, eta), '&')
      == ["route=" + routeId, "stop=" + stopName, "eta=" + FormatInt(eta)]
  {
    var a, b, c := "route=" + routeId, "stop=" + stopName, "eta=" + FormatInt(eta);
    assert ReminderData(routeId, stopName, eta) == a + ['&'] + b + ['&'] + c;
    assert '&' !in FormatInt(eta);
    SplitThree(a, b, c, '&');
  }

  /** Parsing the data of a bubble gives back its route id, stop name and
      ETA, provided the id and the name hold no '&' and no '='. */
  lemma ReminderDataRoundTrip(routeId: string, stopName: string, eta: int)
    requires '&' !in routeId && '=' !in routeId && '&' !in stopName && '=' !in stopName
    requires MinInt64 <= eta <= MaxInt64
    ensures ParamsOf(Split(ReminderData(routeId, stopName, eta), '&'))
      == map["route" := routeId, "stop" := stopName, "eta" := FormatInt(eta)]
    ensures ParseInt(FormatInt(eta)) == Some(eta)
  {
    var a, b, c := "route=" + routeId, "stop=" + stopName, "eta=" + FormatInt(eta);
    ReminderDataPieces(routeId, stopName, eta);
    assert '=' !in FormatInt(eta);
    SplitPair("route", routeId);
    SplitPair("stop", stopName);
    SplitPair("eta", FormatInt(eta));
    assert a == "route" + "=" + routeId && b == "stop" + "=" + stopName && c == "eta" + "=" + FormatInt(eta);
    var pieces := [a, b, c];
    assert pieces[..2] == [a, b] && [a, b][..1] == [a] && [a][..0] == [];
    assert ParamsOf([a]) == map["route" := routeId];
    assert ParamsOf([a, b]) == map["route" := routeId, "stop" := stopName];
    ParseFormatInt(eta);
  }

  /** params[key], which is "" for a missing key. */
  function Lookup(params: map<string, string>, key: string): string
  {
    if key in params then params[key] else ""
  }

  datatype PostbackAction = Ignore | RejectEta | Create(reminder: Reminder)

  /** The decision of handlePostbackEvent: events not from a user, and data
      without a "route" key, are ignored; an "eta" that is not a base-10
      int64 is rejected; otherwise a reminder for that user, route and stop
      is built, ten minutes ahead of the ETA. Its id, status and timestamps
      are left for CreateReminder to fill in. */
  function PostbackActionFor(source: Source, params: map<string, string>): (a: PostbackAction)
    ensures a == Ignore <==> !source.UserSource? || "route" !in params
    ensures a == RejectEta <==> source.UserSource? && "route" in params && ParseInt(Lookup(params, "eta")).None?
    ensures a.Create? ==>
      && a.reminder.userId == source.userId
      && a.reminder.routeId == params["route"]
      && a.reminder.stopName == Lookup(params, "stop")
      && a.reminder.advanceMinutes == 10
      && ParseInt(Lookup(params, "eta")) == Some(a.reminder.eta)
  {
    if !source.UserSource? || "route" !in params then Ignore
    else
      match ParseInt(Lookup(params, "eta"))
      case None => RejectEta
      case Some(eta) => Create(Reminder("", source.userId, Lookup(params, "stop"), params["route"], eta, 10, Active, 0, 0))
  }

  /** The reply handlePostbackEvent sends, if any. */
  datatype PostbackReply = NoReply | EtaFormatError | CreateFailed | ReminderSet(stopName: string)

  /** handlePostbackEvent, with `newId` the id the store assigns. */
  method HandlePostbackEvent(store: FirestoreClient, source: Source, data: string, newId: string, now: int)
    returns (reply: PostbackReply)
    requires store.Valid() && newId !in store.reminders
    modifies store
    ensures store.Valid()
    ensures var a := PostbackActionFor(source, ParamsOf(Split(data, '&')));
      && (a == Ignore ==> reply == NoReply && store.reminders == old(store.reminders))
      && (a == RejectEta ==> reply == EtaFormatError && store.reminders == old(store.reminders))
      && (a.Create? ==>
            (reply == ReminderSet(a.reminder.stopName)
             && store.reminders == old(store.reminders)[newId := a.reminder.(status := Active, createdAt := now, updatedAt := now)])
            || (reply == CreateFailed && store.reminders == old(store.reminders)))
    ensures store.users == old(store.users) && store.undecodable == old(store.undecodable)
  {
    var params := ParsePostbackData(data);
    match PostbackActionFor(source, params)
    case Ignore =>
      reply := NoReply;
    case RejectEta =>
      reply := EtaFormatError;
    case Create(r) =>
      var _, ok := store.CreateReminder(r, newId, now);
      reply := if ok then ReminderSet(r.stopName) else CreateFailed;
  }

  // ---------------------------------------------------------------------
  // Result bubbles
  // ---------------------------------------------------------------------

  /** One carousel bubble: the stop it shows and its postback data. */
  datatype Bubble = Bubble(stop: NearestStop, reminderData: string)

  function BubbleFor(s: NearestStop): Bubble
  {
    Bubble(s, ReminderData(s.route.id, s.stop.name, s.eta))
  }

  /** Tapping "remind me" on a bubble creates a reminder for exactly the
      route, stop and ETA the bubble shows. */
  lemma BubbleTapCreatesReminder(s: NearestStop, userId: string)
    requires '&' !in s.route.id && '=' !in s.route.id && '&' !in s.stop.name && '=' !in s.stop.name
    requires MinInt64 <= s.eta <= MaxInt64
    ensures PostbackActionFor(UserSource(userId), ParamsOf(Split(BubbleFor(s).reminderData, '&')))
      == Create(Reminder("", userId, s.stop.name, s.route.id, s.eta, 10, Active, 0, 0))
  {
    ReminderDataRoundTrip(s.route.id, s.stop.name, s.eta);
  }

  /** The bubbles of sendGarbageTruckResults: the first three stops at most,
      in the order given. */
  method SendGarbageTruckResults(stops: seq<NearestStop>) returns (bubbles: seq<Bubble>)
    ensures |bubbles| == Min(3, |stops|)
    ensures forall i :: 0 <= i < |bubbles| ==> bubbles[i] == BubbleFor(stops[i])
  {
    bubbles := [];
    var i := 0;
    while i < |stops|
      invariant 0 <= i <= |stops| && i <= 3
      invariant |bubbles| == i
      invariant forall j :: 0 <= j < i ==> bubbles[j] == BubbleFor(stops[j])
    {
      if i >= 3 {
        break;
      }
      bubbles := bubbles + [BubbleFor(stops[i])];
      i := i + 1;
    }
  }

  // ---------------------------------------------------------------------
  // Commands and text routing
  // ---------------------------------------------------------------------

  datatype Command = Help | FavoriteUsage | AddFavorite(name: string, address: string) | ListFavorites | UnknownCommand

  /** handleCommand's choice: the text is split on single spaces; for
      "/favorite" the name is the second piece and the address the rest,
      joined with single spaces. */
  function CommandFor(text: string): Command
  {
    var parts := Split(text, ' ');
    if parts[0] == "/help" then Help
    else if parts[0] == "/favorite" then
      if |parts| < 2 then FavoriteUsage else AddFavorite(parts[1], Join(parts[2..], ' '))
    else if parts[0] == "/list" then ListFavorites
    else UnknownCommand
  }

  /** What geocoding the favorite's address gave. */
  datatype GeoLocation = GeoLocation(lat: real, lng: real, address: string)

  datatype CommandReply =
    | HelpText
    | FavoriteUsageText
    | AddressNotFound
    | FavoriteFailed
    | FavoriteSaved(name: string)
    | FavoritesUnavailable
    | NoFavorites
    | FavoriteList(favorites: seq<Favorite>)
    | UnknownCommandText

  /** handleCommand with addFavorite and listFavorites: `geocoded` is what
      geocoding the address gave (None when it failed). A favorite is stored
      under the geocoder's address, not the one typed; only "/favorite" with
      a name writes to the store. */
  method HandleCommand(store: FirestoreClient, userId: string, text: string, geocoded: Option<GeoLocation>, now: int)
    returns (reply: CommandReply)
    modifies store
    ensures store.reminders == old(store.reminders) && store.order == old(store.order)
    ensures store.undecodable == old(store.undecodable)
    ensures !CommandFor(text).AddFavorite? ==> store.users == old(store.users)
    ensures CommandFor(text) == Help <==> reply == HelpText
    ensures CommandFor(text) == FavoriteUsage <==> reply == FavoriteUsageText
    ensures CommandFor(text) == UnknownCommand <==> reply == UnknownCommandText
    ensures CommandFor(text).AddFavorite? ==>
      var name := CommandFor(text).name;
      && (geocoded.None? ==> reply == AddressNotFound && store.users == old(store.users))
      && (geocoded.Some? ==>
            var fav := Favorite(name, geocoded.value.lat, geocoded.value.lng, geocoded.value.address);
            || (reply == FavoriteSaved(name) && userId !in old(store.users)
                && store.users == old(store.users)[userId := User(userId, [fav], Some(now), Some(now))])
            || (reply == FavoriteSaved(name) && userId in old(store.users)
                && store.users == old(store.users)[userId := old(store.users)[userId].(favorites := old(store.users)[userId].favorites + [fav], updatedAt := Some(now))])
            || (reply == FavoriteFailed && store.users == old(store.users)))
    ensures CommandFor(text) == ListFavorites ==>
      || reply == FavoritesUnavailable
      || (userId in store.users && store.users[userId].favorites == [] && reply == NoFavorites)
      || (userId in store.users && store.users[userId].favorites != [] && reply == FavoriteList(store.users[userId].favorites))
    ensures CommandFor(text) == ListFavorites && userId !in store.users ==> reply == FavoritesUnavailable
  {
    match CommandFor(text)
    case Help =>
      reply := HelpText;
    case FavoriteUsage =>
      reply := FavoriteUsageText;
    case AddFavorite(name, address) =>
      if geocoded.None? {
        return AddressNotFound;
      }
      var fav := Favorite(name, geocoded.value.lat, geocoded.value.lng, geocoded.value.address);
      var ok := store.AddFavorite(userId, fav, now);
      reply := if ok then FavoriteSaved(name) else FavoriteFailed;
    case ListFavorites =>
      var user := store.GetUser(userId);
      if user.None? {
        return FavoritesUnavailable;
      }
      if |user.value.favorites| == 0 {
        return NoFavorites;
      }
      reply := FavoriteList(user.value.favorites);
    case UnknownCommand =>
      reply := UnknownCommandText;
  }

  /** A favorite command gives back the name and the whole address, spaces
      and all, when the name has no space. */
  lemma FavoriteCommandRoundTrip(name: string, address: string)
    requires ' ' !in name
    ensures CommandFor("/favorite " + name + " " + address) == AddFavorite(name, address)
    ensures CommandFor("/favorite " + name) == AddFavorite(name, "")
  {
    var text := "/favorite " + name + " " + address;
    assert text == "/favorite" + [' '] + (name + [' '] + address);
    SplitLeadingPiece("/favorite", name + [' '] + address, ' ');
    SplitLeadingPiece(name, address, ' ');
    var parts := Split(text, ' ');
    assert parts == ["/favorite", name] + Split(address, ' ');
    assert parts[2..] == Split(address, ' ');
    JoinSplit(address, ' ');
    var bare := "/favorite " + name;
    assert bare == "/favorite" + [' '] + name;
    SplitLeadingPiece("/favorite", name, ' ');
    SplitWithoutSeparator(name, ' ');
  }

  /** The usage reply is given exactly for the bare "/favorite"; anything
      after a space, even nothing, is taken as a name. */
  lemma FavoriteUsageOnlyBare(text: string)
    ensures CommandFor(text) == FavoriteUsage <==> text == "/favorite"
  {
    SplitOnePiece(text, ' ');
    if ' ' !in text {
      SplitWithoutSeparator(text, ' ');
    }
    if text == "/favorite" {
      assert ' ' !in text;
    }
  }

  /** The greetings answered with the welcome text, after trimming and
      lower-casing. */
  predicate IsGreeting(s: string)
  {
    s == "hi" || s == "hello" || s == "你好" || s == "哈囉"
  }

  datatype TextRoute = RunCommand(command: Command) | Welcome | Analyze

  /** handleTextMessage's routing: commands first, then greetings, and
      everything else to intent analysis. */
  function TextRouteFor(text: string): TextRoute
  {
    if HasPrefix(text, "/") then RunCommand(CommandFor(text))
    else if IsGreeting(ToLower(TrimSpace(text))) then Welcome
    else Analyze
  }

  /** A greeting, in whatever case, starts and ends with a letter. */
  lemma GreetingEnds(g: string)
    requires IsGreeting(ToLower(g))
    ensures |g| >= 2 && g[0] != '/' && !IsSpace(g[0]) && !IsSpace(g[|g| - 1])
  {
    var lg := ToLower(g);
    assert lg[0] == LowerChar(g[0]) && lg[|lg| - 1] == LowerChar(g[|g| - 1]);
  }

  /** White space around a word that starts and ends with a non-space
      character is what TrimSpace removes. */
  lemma TrimSpacePadded(pre: string, x: string, post: string)
    requires forall i :: 0 <= i < |pre| ==> IsSpace(pre[i])
    requires forall i :: 0 <= i < |post| ==> IsSpace(post[i])
    requires |x| > 0 && !IsSpace(x[0]) && !IsSpace(x[|x| - 1])
    ensures TrimSpace(pre + x + post) == x
  {
    assert pre + x + post == pre + (x + post);
    TrimLeftSpaces(pre, x + post);
    TrimRightSpaces(x, post);
  }

  /** A greeting is recognised whatever the ASCII letter case and whatever
      white space surrounds it. */
  lemma GreetingTolerance(pre: string, g: string, post: string)
    requires forall i :: 0 <= i < |pre| ==> IsSpace(pre[i])
    requires forall i :: 0 <= i < |post| ==> IsSpace(post[i])
    requires IsGreeting(ToLower(g))
    ensures TextRouteFor(pre + g + post) == Welcome
  {
    GreetingEnds(g);
    var text := pre + g + post;
    TrimSpacePadded(pre, g, post);
    assert text[0] != '/' by {
      if |pre| > 0 {
        assert text[0] == pre[0];
      } else {
        assert text[0] == g[0];
      }
    }
    assert !HasPrefix(text, "/") by {
      assert "/"[0] == '/';
    }
    assert IsGreeting(ToLower(TrimSpace(text)));
  }

  /** text[k..k+n] is a greeting in some letter case, and everything around
      it is white space. */
  predicate GreetingAt(text: string, k: int, n: int)
  {
    && 0 <= k && 0 <= n && k + n <= |text|
    && (forall i :: 0 <= i < k ==> IsSpace(text[i]))
    && (forall i :: k + n <= i < |text| ==> IsSpace(text[i]))
    && IsGreeting(ToLower(text[k..k + n]))
  }

  /** Only a greeting padded with white space gets the welcome reply. */
  lemma WelcomeOnlyForGreetings(text: string)
    requires TextRouteFor(text) == Welcome
    ensures GreetingAt(text, |text| - |TrimLeft(text)|, |TrimSpace(text)|)
  {
    TrimSpaceKeepsMiddle(text);
  }

  /** A text gets the welcome reply exactly when it is a greeting, in any
      letter case, with only white space around it. */
  lemma WelcomeExactlyForGreetings(text: string)
    ensures TextRouteFor(text) == Welcome <==> exists k, n :: GreetingAt(text, k, n)
  {
    if TextRouteFor(text) == Welcome {
      WelcomeOnlyForGreetings(text);
    }
    if exists k, n :: GreetingAt(text, k, n) {
      var k, n :| GreetingAt(text, k, n);
      GreetingAtWelcomed(text, k, n);
    }
  }

  lemma GreetingAtWelcomed(text: string, k: int, n: int)
    requires GreetingAt(text, k, n)
    ensures TextRouteFor(text) == Welcome
  {
    var pre, g, post := text[..k], text[k..k + n], text[k + n..];
    assert text == pre + g + post;
    GreetingTolerance(pre, g, post);
  }

  /** Where handleTextMessage looks for a location to search around: the
      district of the intent when it has one, else the location the model
      extracted from the text (None when that call failed), else nowhere. */
  datatype LocationQuery = GeocodeDistrict(district: string) | GeocodeExtracted(location: string) | AskForAddress

  function LocationQueryFor(intent: Nlu.IntentResult, extracted: Option<string>): (q: LocationQuery)
    ensures q.GeocodeDistrict? <==> intent.district != ""
    ensures q.GeocodeExtracted? ==> extracted == Some(q.location) && q.location != ""
    ensures q == AskForAddress <==> intent.district == "" && (extracted.None? || extracted == Some(""))
  {
    if intent.district != "" then GeocodeDistrict(intent.district)
    else if extracted.None? || extracted.value == "" then AskForAddress
    else GeocodeExtracted(extracted.value)
  }

  // ---------------------------------------------------------------------
  // The search
  // ---------------------------------------------------------------------

  /** The window searchNearbyGarbageTrucks searches in: only when there is
      an intent with a non-empty bound, and only when ParseTimeWindow
      accepts it. */
  function SearchWindow(intent: Option<Nlu.IntentResult>, now: int, hostOffset: int): Option<TimeWindow>
  {
    if intent.Some? && (intent.value.timeWindow.from != "" || intent.value.timeWindow.to != "") then
      match Nlu.ParseTimeWindow(intent.value.timeWindow, now, hostOffset)
      case Some((from, to)) => Some(TimeWindow(from, to))
      case None => None
    else None
  }

  /** The distance cap of the window search, in metres. */
  const WindowMaxDistance: real := 2000.0

  /** The number of stops the fallback nearest-stop search keeps. */
  const NearestLimit: int := 5

  datatype SearchReply = FeedUnavailable | NoStopsNearby | Results(bubbles: seq<Bubble>)

  /** The bubbles show stops of `pool`, sorted by `k`, each with its own
      postback data. */
  predicate ShownFrom(bubbles: seq<Bubble>, pool: seq<NearestStop>, k: SortKey)
  {
    && (forall i :: 0 <= i < |bubbles| ==> bubbles[i] == BubbleFor(bubbles[i].stop) && bubbles[i].stop in pool)
    && (forall i, j :: 0 <= i < j < |bubbles| ==> Key(bubbles[i].stop, k) <= Key(bubbles[j].stop, k))
  }

  /** The leading bubbles of a sorted selection from a pool are shown from
      that pool. */
  lemma LeadingBubblesShown(stops: seq<NearestStop>, pool: seq<NearestStop>, k: SortKey, bubbles: seq<Bubble>)
    requires SortedBy(stops, k) && multiset(stops) <= multiset(pool)
    requires |bubbles| <= |stops|
    requires forall i :: 0 <= i < |bubbles| ==> bubbles[i] == BubbleFor(stops[i])
    ensures ShownFrom(bubbles, pool, k)
  {
    forall i | 0 <= i < |bubbles|
      ensures bubbles[i].stop in pool
    {
      assert stops[i] in multiset(stops);
    }
  }

  /** The stops the bubbles show, in order. */
  function ShownStops(bubbles: seq<Bubble>): (stops: seq<NearestStop>)
    ensures |stops| == |bubbles|
    ensures forall i :: 0 <= i < |bubbles| ==> stops[i] == bubbles[i].stop
  {
    if |bubbles| == 0 then [] else ShownStops(bubbles[..|bubbles| - 1]) + [bubbles[|bubbles| - 1].stop]
  }

  /** The bubbles show min(3, n) of the pool's n stops, in key order, and no
      stop left out of them has a smaller key than one shown. */
  predicate ShowsSmallest(bubbles: seq<Bubble>, pool: seq<NearestStop>, k: SortKey)
  {
    && ShownFrom(bubbles, pool, k)
    && |bubbles| == Min(3, |pool|)
    && multiset(ShownStops(bubbles)) <= multiset(pool)
    && forall a, b :: a in ShownStops(bubbles) && b in multiset(pool) - multiset(ShownStops(bubbles)) ==> Key(a, k) <= Key(b, k)
  }

  /** A sorted selection that no left-out stop of the pool undercuts keeps
      that property when cut after its first m stops. */
  lemma CutOfSmallest(stops: seq<NearestStop>, pool: seq<NearestStop>, m: int, k: SortKey)
    requires SortedBy(stops, k) && multiset(stops) <= multiset(pool) && 0 <= m <= |stops|
    requires forall a, b :: a in stops && b in multiset(pool) - multiset(stops) ==> Key(a, k) <= Key(b, k)
    ensures multiset(stops[..m]) <= multiset(pool)
    ensures forall a, b :: a in stops[..m] && b in multiset(pool) - multiset(stops[..m]) ==> Key(a, k) <= Key(b, k)
  {
    PrefixHoldsSmallest(stops, m, k);
    forall a, b | a in stops[..m] && b in multiset(pool) - multiset(stops[..m])
      ensures Key(a, k) <= Key(b, k)
    {
      assert a in stops;
      if multiset(stops)[b] <= multiset(stops[..m])[b] {
        assert b in multiset(pool) - multiset(stops);
      } else {
        assert b in multiset(stops) - multiset(stops[..m]);
      }
    }
  }

  /** A selection from a pool: sorted by the key, drawn from the pool, no
      left-out stop of the pool smaller, and either all of the pool or at
      least three stops. */
  predicate Selection(stops: seq<NearestStop>, pool: seq<NearestStop>, k: SortKey)
  {
    && SortedBy(stops, k) && multiset(stops) <= multiset(pool)
    && (forall a, b :: a in stops && b in multiset(pool) - multiset(stops) ==> Key(a, k) <= Key(b, k))
    && Min(3, |stops|) == Min(3, |pool|)
  }

  /** The window search's result is a selection of all its stops by ETA. */
  lemma WindowSelection(stops: seq<NearestStop>, pool: seq<NearestStop>)
    requires SortedBy(stops, ByEta) && multiset(stops) == multiset(pool)
    ensures Selection(stops, pool, ByEta)
  {
    assert |multiset(stops)| == |multiset(pool)|;
  }

  /** The five nearest stops are a selection of the parsing rows by
      distance. */
  lemma NearestSelection(stops: seq<NearestStop>, cat: seq<CollectionPoint>, dist: Coord -> Meters, now: int)
    requires SortedBy(stops, ByDistance)
    requires |stops| == Min(NearestLimit, CountParsing(cat, now))
    requires multiset(stops) <= multiset(Collect(cat, dist, now, Nearest))
    requires forall s, c :: s in stops && c in multiset(Collect(cat, dist, now, Nearest)) - multiset(stops) ==> s.distance <= c.distance
    ensures Selection(stops, Collect(cat, dist, now, Nearest), ByDistance)
  {
    CollectNearestCount(cat, dist, now);
  }

  /** The bubbles of the first min(3, n) stops of a selection show the
      smallest of the pool. */
  lemma LeadingBubblesSmallest(stops: seq<NearestStop>, pool: seq<NearestStop>, k: SortKey, bubbles: seq<Bubble>)
    requires Selection(stops, pool, k)
    requires |bubbles| == Min(3, |stops|)
    requires forall i :: 0 <= i < |bubbles| ==> bubbles[i] == BubbleFor(stops[i])
    ensures ShowsSmallest(bubbles, pool, k)
  {
    LeadingBubblesShown(stops, pool, k, bubbles);
    CutOfSmallest(stops, pool, |bubbles|, k);
    assert ShownStops(bubbles) == stops[..|bubbles|];
  }

  /** A selection with the same stops as a filter's results counts no more
      than the points whose time parses. */
  lemma SameStopsSameCount(stops: seq<NearestStop>, pool: seq<NearestStop>, cat: seq<CollectionPoint>, now: int, f: Filter, dist: Coord -> Meters)
    requires pool == Collect(cat, dist, now, f) && multiset(stops) == multiset(pool)
    ensures |stops| == |pool| <= CountParsing(cat, now)
  {
    assert |multiset(stops)| == |multiset(pool)|;
    CollectBoundedByParsing(cat, dist, now, f);
  }

  /** The stops the window search finds: none when there is no window. */
  function WindowPool(cat: seq<CollectionPoint>, dist: Coord -> Meters, intent: Option<Nlu.IntentResult>, now: int, hostOffset: int): seq<NearestStop>
  {
    match SearchWindow(intent, now, hostOffset)
    case None => []
    case Some(w) => Collect(cat, dist, now, InWindow(w, WindowMaxDistance))
  }

  /** The window half of searchNearbyGarbageTrucks: the stops of the
      intent's time window within WindowMaxDistance, sorted by ETA; none
      when the intent sets no bound or a bound does not parse. */
  method WindowSearch(cat: seq<CollectionPoint>, dist: Coord -> Meters,
                      intent: Option<Nlu.IntentResult>, now: int, hostOffset: int)
    returns (stops: seq<NearestStop>)
    ensures |stops| == |WindowPool(cat, dist, intent, now, hostOffset)| <= CountParsing(cat, now)
    ensures |stops| > 0 ==> Selection(stops, WindowPool(cat, dist, intent, now, hostOffset), ByEta)
  {
    stops := [];
    if intent.Some? && (intent.value.timeWindow.from != "" || intent.value.timeWindow.to != "") {
      var parsed := Nlu.ParseTimeWindow(intent.value.timeWindow, now, hostOffset);
      if parsed.Some? {
        var window := TimeWindow(parsed.value.0, parsed.value.1);
        ghost var pool := Collect(cat, dist, now, InWindow(window, WindowMaxDistance));
        assert WindowPool(cat, dist, intent, now, hostOffset) == pool;
        var windowErr;
        stops, windowErr := FindStopsInTimeWindow(cat, dist, now, window, WindowMaxDistance);
        SameStopsSameCount(stops, pool, cat, now, InWindow(window, WindowMaxDistance), dist);
        WindowSelection(stops, pool);
      }
    }
  }

  /** The fallback half: the five nearest stops, sorted by distance. */
  method NearestSearch(cat: seq<CollectionPoint>, dist: Coord -> Meters, now: int)
    returns (stops: seq<NearestStop>)
    ensures |stops| == Min(NearestLimit, CountParsing(cat, now))
    ensures Selection(stops, Collect(cat, dist, now, Nearest), ByDistance)
  {
    var nearestErr;
    stops, nearestErr := FindNearestStops(cat, dist, now, NearestLimit);
    NearestSelection(stops, cat, dist, now);
  }

  /** searchNearbyGarbageTrucks: `feed` is the catalogue fetch (None when
      it failed), `dist` the distance of each point from the user. The
      window search runs when SearchWindow gives a window; when it finds
      nothing, or did not run, the five nearest stops are searched instead;
      at most three are shown, from the window search by ETA when it found
      any, else from the nearest stops by distance. */
  method SearchNearbyGarbageTrucks(feed: Option<seq<CollectionPoint>>, dist: Coord -> Meters,
                                   intent: Option<Nlu.IntentResult>, now: int, hostOffset: int)
    returns (reply: SearchReply)
    ensures feed.None? <==> reply == FeedUnavailable
    ensures feed.Some? ==> (reply == NoStopsNearby <==> CountParsing(feed.value, now) == 0)
    ensures reply.Results? ==> 1 <= |reply.bubbles| <= 3
    ensures reply.Results? && |WindowPool(feed.value, dist, intent, now, hostOffset)| > 0 ==>
      ShowsSmallest(reply.bubbles, WindowPool(feed.value, dist, intent, now, hostOffset), ByEta)
    ensures reply.Results? && |WindowPool(feed.value, dist, intent, now, hostOffset)| == 0 ==>
      ShowsSmallest(reply.bubbles, Collect(feed.value, dist, now, Nearest), ByDistance)
  {
    if feed.None? {
      return FeedUnavailable;
    }
    var cat := feed.value;
    var stops := WindowSearch(cat, dist, intent, now, hostOffset);
    ghost var pool, key := WindowPool(cat, dist, intent, now, hostOffset), ByEta;
    if |stops| == 0 {
      stops := NearestSearch(cat, dist, now);
      pool, key := Collect(cat, dist, now, Nearest), ByDistance;
    }
    if |stops| == 0 {
      return NoStopsNearby;
    }
    var bubbles := SendGarbageTruckResults(stops);
    LeadingBubblesSmallest(stops, pool, key, bubbles);
    return Results(bubbles);
  }
}
