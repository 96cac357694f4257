/**
 * The browser-side client of the catalogue route: the query string it
 * builds from a parameter object, and how it turns HTTP replies into
 * results. The `fetch` itself is an input.
 */
module ProductApi {
  import opened Wrappers
  import opened Text
  import opened Seqs
  import ProductsRoute

  const BaseUrl := "/api/products"

  /** A property value of a plain JavaScript parameter object. */
  datatype Value = Undefined | Null | Text(text: string) | Number(number: int)

  /** A parameter object as `Object.entries` lists it: in insertion order. */
  type Obj = seq<(string, Value)>

  predicate DistinctKeys(obj: Obj)
  {
    forall i, j :: 0 <= i < j < |obj| ==> obj[i].0 != obj[j].0
  }

  /** The object has the property `key`. */
  predicate HasKey(obj: Obj, key: string)
  {
    exists i :: 0 <= i < |obj| && obj[i].0 == key
  }

  /** The object has the property `key`, and its value is `v`. */
  predicate PropertyIs(obj: Obj, key: string, v: Value)
  {
    HasKey(obj, key) && forall i :: 0 <= i < |obj| && obj[i].0 == key ==> obj[i].1 == v
  }

  /**
   * `{...obj, [key]: v}`: an existing property keeps its place and takes the
   * new value; a new one is added at the end.
   */
  function SetProperty(obj: Obj, key: string, v: Value): (r: Obj)
    ensures DistinctKeys(obj) ==> DistinctKeys(r)
    ensures HasKey(obj, key) ==> |r| == |obj|
    ensures !HasKey(obj, key) ==> r == obj + [(key, v)]
    ensures forall i :: 0 <= i < |obj| && obj[i].0 != key ==> r[i] == obj[i]
    ensures forall i :: 0 <= i < |r| && r[i].0 == key ==> r[i].1 == v
    ensures forall i :: 0 <= i < |r| && r[i].0 != key ==> i < |obj| && r[i] == obj[i]
    ensures HasKey(r, key)
  {
    if HasKey(obj, key) then
      var r := seq(|obj|, i requires 0 <= i < |obj| => if obj[i].0 == key then (key, v) else obj[i]);
      var i :| 0 <= i < |obj| && obj[i].0 == key;
      assert r[i].0 == key;
      r
    else
      var r := obj + [(key, v)];
      assert r[|obj|].0 == key;
      r
  }

  /** `value !== undefined && value !== null`. */
  predicate Present(v: Value)
  {
    v.Text? || v.Number?
  }

  /** `value.toString()` for the values that are sent. */
  function ToText(v: Value): string
    requires Present(v)
  {
    match v
    case Text(s) => s
    case Number(n) => IntToString(n)
  }

  /** The entry `e` of the query string comes from the property `p`. */
  predicate Sends(p: (string, Value), e: (string, string))
  {
    Present(p.1) && e == (p.0, ToText(p.1))
  }

  /** The property is sent: its value is neither undefined nor null. */
  predicate SentProperty(p: (string, Value))
  {
    Present(p.1)
  }

  /**
   * The entries `searchProducts` appends: one per property that is neither
   * undefined nor null, in the object's order.
   */
  function QueryEntries(obj: Obj): (r: ProductsRoute.Params)
    ensures |r| <= |obj|
    ensures forall e :: e in r <==> exists i :: 0 <= i < |obj| && Sends(obj[i], e)
    ensures (forall i :: 0 <= i < |obj| ==> Present(obj[i].1)) ==> |r| == |obj|
    ensures |r| == |Filter(obj, SentProperty)|
    ensures forall k :: 0 <= k < |r| ==> Sends(Filter(obj, SentProperty)[k], r[k])
  {
    EntriesFacts(obj);
    EntriesInOrder(obj);
    Entries(obj)
  }

  /** The k-th entry comes from the k-th property that is sent. */
  lemma {:induction false} EntriesInOrder(obj: Obj)
    ensures |Entries(obj)| == |Kept(obj, SentProperty)|
    ensures forall k :: 0 <= k < |Entries(obj)| ==> Sends(Kept(obj, SentProperty)[k], Entries(obj)[k])
  {
    if |obj| > 0 {
      EntriesInOrder(obj[1..]);
      if Present(obj[0].1) {
        var e := (obj[0].0, ToText(obj[0].1));
        assert Entries(obj) == [e] + Entries(obj[1..]);
        assert Kept(obj, SentProperty) == [obj[0]] + Kept(obj[1..], SentProperty);
      } else {
        assert Entries(obj) == Entries(obj[1..]);
        assert Kept(obj, SentProperty) == Kept(obj[1..], SentProperty);
      }
    }
  }

  function Entries(obj: Obj): ProductsRoute.Params
  {
    if |obj| == 0 then []
    else (if Present(obj[0].1) then [(obj[0].0, ToText(obj[0].1))] else []) + Entries(obj[1..])
  }

  lemma {:induction false} EntriesFacts(obj: Obj)
    ensures |Entries(obj)| <= |obj|
    ensures forall e :: e in Entries(obj) <==> exists i :: 0 <= i < |obj| && Sends(obj[i], e)
    ensures (forall i :: 0 <= i < |obj| ==> Present(obj[i].1)) ==> |Entries(obj)| == |obj|
  {
    if |obj| > 0 {
      EntriesFacts(obj[1..]);
      var rest := Entries(obj[1..]);
      forall e
        ensures e in Entries(obj) <==> exists i :: 0 <= i < |obj| && Sends(obj[i], e)
      {
        if e in rest {
          var i :| 0 <= i < |obj[1..]| && Sends(obj[1..][i], e);
          assert Sends(obj[i + 1], e);
        }
        if exists i :: 0 <= i < |obj| && Sends(obj[i], e) {
          var i :| 0 <= i < |obj| && Sends(obj[i], e);
          if i > 0 {
            assert Sends(obj[1..][i - 1], e);
          }
        }
      }
    }
  }

  /** A property that is sent reaches the route under its own name, with its text. */
  lemma SentValueReachesRoute(obj: Obj, i: nat)
    requires DistinctKeys(obj)
    requires i < |obj| && Present(obj[i].1)
    ensures ProductsRoute.Get(QueryEntries(obj), obj[i].0) == Some(ToText(obj[i].1))
  {
    SentEntryFound(obj, i);
  }

  lemma {:induction false} SentEntryFound(obj: Obj, i: nat)
    requires DistinctKeys(obj)
    requires i < |obj| && Present(obj[i].1)
    ensures ProductsRoute.Get(Entries(obj), obj[i].0) == Some(ToText(obj[i].1))
  {
    if i > 0 {
      SentEntryFound(obj[1..], i - 1);
      assert obj[1..][i - 1] == obj[i];
      var r := Entries(obj);
      if Present(obj[0].1) {
        assert r[1..] == Entries(obj[1..]);
        ProductsRoute.GetSkipsOtherName(r, obj[i].0);
      } else {
        assert ProductsRoute.Get(Entries(obj[1..]), obj[i].0) == Some(ToText(obj[i].1));
        assert r == Entries(obj[1..]);
        assert ProductsRoute.Get(r, obj[i].0) == Some(ToText(obj[i].1));
      }
    }
  }

  /** A property left undefined or null is not in the query at all. */
  lemma UnsentValueMissing(obj: Obj, key: string)
    requires forall i :: 0 <= i < |obj| && obj[i].0 == key ==> !Present(obj[i].1)
    ensures ProductsRoute.Get(QueryEntries(obj), key).None?
  {
    var r := QueryEntries(obj);
    forall k | 0 <= k < |r| ensures r[k].0 != key {
      assert r[k] in r;
      var i :| 0 <= i < |obj| && Sends(obj[i], r[k]);
    }
  }

  /** The request URL: the base path, `?`, and the serialised entries. */
  function SearchUrl(obj: Obj, encode: string -> string): (url: string)
    ensures |url| >= |BaseUrl| + 1 && url[..|BaseUrl|] == BaseUrl && url[|BaseUrl|] == '?'
    ensures url[|BaseUrl| + 1..] == ProductsRoute.Serialize(QueryEntries(obj), encode)
  {
    BaseUrl + "?" + ProductsRoute.Serialize(QueryEntries(obj), encode)
  }

  /** What `fetch` produced: a reply with a status, or a thrown network error. */
  datatype Fetched<T> = Reply(status: int, body: T) | NetworkError(message: string)

  /** `response.ok`: a status from 200 to 299. */
  predicate OkStatus(status: int)
  {
    200 <= status <= 299
  }

  /** `searchProducts`: the body of an ok reply; every other outcome is thrown. */
  function SearchProducts<T>(fetched: Fetched<T>): (r: Result<T, string>)
    ensures r.Ok? <==> fetched.Reply? && OkStatus(fetched.status)
    ensures r.Ok? ==> r.value == fetched.body
    ensures fetched.Reply? && !OkStatus(fetched.status) ==> r == Err("HTTP error! status: " + IntToString(fetched.status))
    ensures fetched.NetworkError? ==> r == Err(fetched.message)
  {
    match fetched
    case NetworkError(m) => Err(m)
    case Reply(status, body) =>
      if !OkStatus(status) then Err("HTTP error! status: " + IntToString(status)) else Ok(body)
  }

  /**
   * The details URL of one product: the base path, "/" and the id. The id
   * can be read back after the slash, and the URL never looks like a search
   * request, whose character after the base path is "?".
   */
  function DetailsUrl(productId: string): (url: string)
    ensures |url| == |BaseUrl| + 1 + |productId|
    ensures url[..|BaseUrl|] == BaseUrl && url[|BaseUrl|] == '/'
    ensures url[|BaseUrl| + 1..] == productId
    ensures forall obj: Obj, encode: string -> string :: url != SearchUrl(obj, encode)
  {
    BaseUrl + "/" + productId
  }

  /**
   * `getProductDetails`: the body of an ok reply, otherwise null — a 404
   * returns null directly and every other failure is caught into null.
   */
  function ProductDetails<T>(fetched: Fetched<T>): (r: Option<T>)
    ensures r.Some? <==> fetched.Reply? && OkStatus(fetched.status)
    ensures r.Some? ==> r.value == fetched.body
  {
    match fetched
    case NetworkError(_) => None
    case Reply(status, body) =>
      if !OkStatus(status) then None else Some(body)
  }

  /** A missing product and a server failure look the same to the caller. */
  lemma DetailsCannotTellMissingFromFailure<T>(body: T)
    ensures ProductDetails(Reply(404, body)) == ProductDetails(Reply(500, body)) == None
  {
  }

  /** The search, unlike the details lookup, reports a 404 as an error. */
  lemma SearchReportsWhatDetailsHides<T>(body: T)
    ensures SearchProducts(Reply(404, body)).Err?
    ensures ProductDetails(Reply(404, body)).None?
  {
  }
}
