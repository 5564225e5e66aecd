/** The ProductCarousel widget: its state, the home-page guard, the product
    fetch with its storage cache and the persisted favorites. The browser is
    abstracted: the page path, the clock, the fetch outcome and whether
    storage takes a write are parameters. */
module Carousel {
  import opened JsonValues
  import opened Decimal
  import opened InsertionSet
  import opened BrowserStorage

  // Storage keys and constants of the widget's configuration.
  const ProductsKey: string := "carousel_products_data"
  const FavoritesKey: string := "user_favorite_items"
  const LastFetchKey: string := "last_data_fetch_time"
  /** How long a fetched snapshot counts as fresh: one hour, in milliseconds. */
  const CacheDuration: int := 3600000
  const ItemsPerViewDesktop: int := 5
  const ItemsPerViewTablet: int := 3
  const ItemsPerViewMobile: int := 2

  /** The paths the widget treats as the home page. */
  const HomePaths: set<string> := {"/", "/index.html", ""}

  /** What awaiting the product feed ends in: the parsed body of an OK
      response, or a failure (rejected request, non-OK status, unparsable body). */
  datatype FetchOutcome = Fetched(data: Json) | FetchFailed

  /** isHomePage, with window.location.pathname passed in. */
  function IsHomePage(path: string): (home: bool)
    ensures home <==> path in HomePaths
  {
    path == "/" || path == "/index.html" || path == ""
  }

  /** getCachedProducts over the storage contents: null (JNull) when the key
      is absent, holds the empty string or holds text JSON.parse rejects;
      otherwise the value the snapshot was written from. */
  function GetCachedProducts(items: map<string, Text>): (cached: Json)
    ensures ProductsKey !in items ==> cached == JNull
    ensures ProductsKey in items && items[ProductsKey].Other? ==> cached == JNull
    ensures ProductsKey in items && items[ProductsKey].Serialized? ==> cached == items[ProductsKey].value
  {
    if ProductsKey in items && TextTruthy(items[ProductsKey]) then
      match Parse(items[ProductsKey])
      case Some(v) => v
      case None => JNull
    else
      JNull
  }

  /** isCacheValid over the storage contents, with Date.now() passed in as `now`. */
  function IsCacheValid(items: map<string, Text>, now: int): (valid: bool)
    ensures LastFetchKey !in items ==> !valid
    ensures LastFetchKey in items && items[LastFetchKey].Serialized? && items[LastFetchKey].value.JNum? ==>
              (valid <==> now - items[LastFetchKey].value.n < CacheDuration)
    ensures LastFetchKey in items && items[LastFetchKey].Serialized? && !items[LastFetchKey].value.JNum? ==> !valid
    ensures LastFetchKey in items && items[LastFetchKey].Other? ==>
              (valid <==> ParseInt(items[LastFetchKey].raw).Some? && now - ParseInt(items[LastFetchKey].raw).value < CacheDuration)
  {
    if LastFetchKey !in items || !TextTruthy(items[LastFetchKey]) then false
    else
      match ParseIntText(items[LastFetchKey])
      case None => false
      case Some(lastFetch) => now - lastFetch < CacheDuration
  }

  /** new Set(v) on the parsed favorites: null gives the empty set, an array
      or a string gives the set of its elements (characters, for a string);
      any other value is not iterable and makes the constructor throw (None). */
  function SetFromIterable(v: Json): (r: Option<seq<Json>>)
    ensures r.Some? <==> v.JNull? || v.JArray? || v.JStr?
    ensures r.Some? ==> Distinct(r.value)
    ensures v.JNull? ==> r == Some([])
    ensures v.JArray? ==> forall x :: x in r.value <==> x in v.items
    ensures v.JStr? ==> forall x :: x in r.value <==> exists i :: 0 <= i < |v.s| && x == JStr([v.s[i]])
  {
    match v
    case JNull => Some([])
    case JArray(items) => Some(FromSeq(items))
    case JStr(s) =>
      var chars := seq(|s|, i requires 0 <= i < |s| => JStr([s[i]]));
      assert forall x :: x in chars <==> exists i :: 0 <= i < |s| && x == JStr([s[i]]) by {
        forall x ensures x in chars <==> exists i :: 0 <= i < |s| && x == JStr([s[i]]) {
          if exists i :: 0 <= i < |s| && x == JStr([s[i]]) {
            var i :| 0 <= i < |s| && x == JStr([s[i]]);
            assert chars[i] == x;
          }
        }
      }
      Some(FromSeq(chars))
    case _ => None
  }

  /** Favorites written by saveFavorites load back as the same set, in the same order. */
  lemma FavoritesRoundTrip(favorites: seq<Json>)
    requires Distinct(favorites)
    ensures SetFromIterable(JArray(favorites)) == Some(favorites)
  {
    FromSeqOfDistinct(favorites);
  }

  /** Once the stored timestamp is an hour old, the cache stays invalid. */
  lemma CacheExpiryIsFinal(items: map<string, Text>, now: int, later: int)
    requires now <= later
    requires !IsCacheValid(items, now)
    ensures !IsCacheValid(items, later)
  {
  }

  class ProductCarousel {
    var products: Json
    /** The favorites Set, in insertion order. */
    var favorites: seq<Json>
    var currentIndex: int
    var itemsPerView: int
    var isInitialized: bool
    const storage: Storage

    ghost predicate Valid()
      reads this
    {
      Distinct(favorites)
    }

    /** The initial state object. */
    constructor (storage: Storage)
      ensures Valid()
      ensures products == JArray([]) && favorites == []
      ensures currentIndex == 0 && itemsPerView == ItemsPerViewDesktop
      ensures !isInitialized
      ensures this.storage == storage
    {
      products := JArray([]);
      favorites := [];
      currentIndex := 0;
      itemsPerView := ItemsPerViewDesktop;
      isInitialized := false;
      this.storage := storage;
    }

    /** init: does nothing off the home page; on it, sets the one-shot flag.
        A second call on the home page finds the flag set and changes nothing. */
    method Init(path: string)
      modifies this`isInitialized
      ensures !IsHomePage(path) ==> isInitialized == old(isInitialized)
      ensures IsHomePage(path) ==> isInitialized
      ensures old(isInitialized) ==> isInitialized
    {
      if !IsHomePage(path) {
        return;
      }
      if isInitialized {
        return;
      }
      isInitialized := true;
    }

    /** fetchProducts. On a fetched body the products are replaced and the
        snapshot and `now` are written. Any failure, including a write that
        storage refuses, lands in the handler, which takes the cached snapshot
        when it is truthy and otherwise leaves the products as they stand. */
    method FetchProducts(outcome: FetchOutcome, now: int, accepted: bool)
      modifies this`products, storage
      ensures outcome.Fetched? && accepted ==>
                products == outcome.data &&
                storage.items == old(storage.items)[ProductsKey := Serialized(outcome.data)][LastFetchKey := Serialized(JNum(now))]
      ensures outcome.Fetched? && accepted ==>
                GetCachedProducts(storage.items) == products && IsCacheValid(storage.items, now)
      ensures !(outcome.Fetched? && accepted) ==> storage.items == old(storage.items)
      ensures outcome.FetchFailed? ==>
                products == (var cached := GetCachedProducts(old(storage.items));
                             if Truthy(cached) then cached else old(products))
      ensures outcome.Fetched? && !accepted ==>
                products == (var cached := GetCachedProducts(old(storage.items));
                             if Truthy(cached) then cached else outcome.data)
    {
      var failed := true;
      if outcome.Fetched? {
        products := outcome.data;
        var stored := storage.SetItem(ProductsKey, Serialized(outcome.data), accepted);
        if stored {
          stored := storage.SetItem(LastFetchKey, Serialized(JNum(now)), accepted);
        }
        failed := !stored;
      }
      if failed {
        var cached := GetCachedProducts(storage.items);
        if Truthy(cached) {
          products := cached;
        }
      }
    }

    /** saveFavorites: the Set, read out in insertion order, is written as a
        JSON array; a refused write is swallowed. */
    method SaveFavorites(accepted: bool)
      requires Valid()
      modifies storage
      ensures storage.items ==
                if accepted then old(storage.items)[FavoritesKey := Serialized(JArray(favorites))]
                else old(storage.items)
      ensures accepted ==> SetFromIterable(storage.items[FavoritesKey].value) == Some(favorites)
    {
      var _ := storage.SetItem(FavoritesKey, Serialized(JArray(favorites)), accepted);
      FavoritesRoundTrip(favorites);
    }

    /** loadFavorites: when a non-empty text is stored and parses, and the
        Set constructor accepts the parsed value, the favorites become that
        Set; a missing or empty text, a parse error or a non-iterable value
        leaves them as they were. */
    method LoadFavorites()
      requires Valid()
      modifies this`favorites
      ensures Valid()
      ensures FavoritesKey !in storage.items ==> favorites == old(favorites)
      ensures FavoritesKey in storage.items && storage.items[FavoritesKey].Other? ==> favorites == old(favorites)
      ensures FavoritesKey in storage.items && storage.items[FavoritesKey].Serialized? ==>
                favorites == (var loaded := SetFromIterable(storage.items[FavoritesKey].value);
                              if loaded.Some? then loaded.value else old(favorites))
    {
      if FavoritesKey in storage.items {
        var stored := storage.items[FavoritesKey];
        if TextTruthy(stored) {
          var parsed := Parse(stored);
          if parsed.Some? {
            var loaded := SetFromIterable(parsed.value);
            if loaded.Some? {
              favorites := loaded.value;
            }
          }
        }
      }
    }

    /** toggleFavorite: flips the membership of `id` and persists the whole Set. */
    method ToggleFavorite(id: Json, accepted: bool)
      requires Valid()
      modifies this`favorites, storage
      ensures Valid()
      ensures favorites == Toggled(old(favorites), id)
      ensures id in favorites <==> id !in old(favorites)
      ensures forall other :: other != id ==> (other in favorites <==> other in old(favorites))
      ensures storage.items ==
                if accepted then old(storage.items)[FavoritesKey := Serialized(JArray(favorites))]
                else old(storage.items)
      ensures accepted ==> SetFromIterable(storage.items[FavoritesKey].value) == Some(favorites)
    {
      if id in favorites {
        favorites := Without(favorites, id);
      } else {
        favorites := Inserted(favorites, id);
      }
      SaveFavorites(accepted);
    }
  }
}
