/** The declarative description of one HTTP call, with builder methods that
    add a URL parameter, a body parameter or a header (Endpoint.swift). */
module Endpoints {

  import opened Components

  /** `m[key] = value` on a Swift dictionary: insert or overwrite one entry. */
  function Upsert<V>(m: map<string, V>, key: string, value: V): (r: map<string, V>)
    ensures r.Keys == m.Keys + {key}
    ensures r[key] == value
    ensures forall k :: k in m && k != key ==> r[k] == m[k]
  {
    m[key := value]
  }

  /** Writing the same entry twice is the same as writing it once. */
  lemma UpsertIdempotent<V>(m: map<string, V>, key: string, value: V)
    ensures Upsert(Upsert(m, key, value), key, value) == Upsert(m, key, value)
  {
  }

  /** No entry is ever removed, and at most one is added. */
  lemma UpsertGrowth<V>(m: map<string, V>, key: string, value: V)
    ensures m.Keys <= Upsert(m, key, value).Keys
    ensures |Upsert(m, key, value).Keys| == if key in m then |m.Keys| else |m.Keys| + 1
  {
    if key in m {
      assert Upsert(m, key, value).Keys == m.Keys;
    } else {
      assert Upsert(m, key, value).Keys == m.Keys + {key};
    }
  }

  /** An endpoint: the path appended to the base URL, the method, the URL
      parameters, the optional body parameters and the extra headers. The
      type parameter of the Swift struct (the model to decode into) plays no
      part in building a request and is dropped. */
  class Endpoint {
    var path: string
    var httpMethod: HTTPMethod
    var urlParams: map<string, Value>
    var bodyParams: Option<map<string, Value>>
    var httpHeaders: HTTPHeaders

    /** Stores every argument unchanged; the defaults are those of the source. */
    constructor (path: string, httpMethod: HTTPMethod := GET, urlParams: map<string, Value> := map[],
                 bodyParams: Option<map<string, Value>> := None, httpHeaders: HTTPHeaders := map[])
      ensures this.path == path && this.httpMethod == httpMethod && this.urlParams == urlParams
      ensures this.bodyParams == bodyParams && this.httpHeaders == httpHeaders
    {
      this.path := path;
      this.httpMethod := httpMethod;
      this.urlParams := urlParams;
      this.bodyParams := bodyParams;
      this.httpHeaders := httpHeaders;
    }

    /** Maps `name` to `value` among the URL parameters; nothing else changes. */
    method AddURLParam(name: string, value: Value)
      modifies this
      ensures urlParams == Upsert(old(urlParams), name, value)
      ensures path == old(path) && httpMethod == old(httpMethod)
      ensures bodyParams == old(bodyParams) && httpHeaders == old(httpHeaders)
    {
      urlParams := urlParams[name := value];
    }

    /** Maps `name` to `value` among the body parameters, creating them first
        when there are none; nothing else changes. */
    method AddBodyParam(name: string, value: Value)
      modifies this
      ensures old(bodyParams).None? ==> bodyParams == Some(map[name := value])
      ensures old(bodyParams).Some? ==> bodyParams == Some(Upsert(old(bodyParams).value, name, value))
      ensures path == old(path) && httpMethod == old(httpMethod)
      ensures urlParams == old(urlParams) && httpHeaders == old(httpHeaders)
    {
      if bodyParams == None {
        bodyParams := Some(map[]);
      }
      bodyParams := Some(bodyParams.value[name := value]);
    }

    /** Maps `name` to `value` among the extra headers; nothing else changes. */
    method AddHTTPHeader(name: string, value: string)
      modifies this
      ensures httpHeaders == Upsert(old(httpHeaders), name, value)
      ensures path == old(path) && httpMethod == old(httpMethod)
      ensures urlParams == old(urlParams) && bodyParams == old(bodyParams)
    {
      httpHeaders := httpHeaders[name := value];
    }
  }
}
