/**
 * The request editor (src/components/RequestPanel.tsx): four fields that
 * its handlers replace, the header-map edits, and the request it emits on
 * Send and Save.
 */
module RequestPanel {
  import opened Wrappers
  import opened Types

  /** The one key a plain JavaScript object does not store by assignment. */
  const ProtoKey := "__proto__"

  /**
   * Whether `obj[k] = value` stores a string value: it does, except for
   * `__proto__` on an object without an own `__proto__` property, where the
   * assignment reaches `Object.prototype`'s setter, which ignores a string.
   */
  predicate AssignmentStores(obj: map<string, string>, k: string)
  {
    k != ProtoKey || k in obj
  }

  /**
   * Key rename: the copy loses `key`, then maps `newKey` to the old value,
   * overwriting any value there, unless that assignment is not stored.
   */
  function Renamed(headers: map<string, string>, key: string, newKey: string): (r: map<string, string>)
    requires key in headers
    ensures AssignmentStores(headers - {key}, newKey) ==> newKey in r && r[newKey] == headers[key]
    ensures !AssignmentStores(headers - {key}, newKey) <==> newKey == ProtoKey && newKey !in r
    ensures key != newKey ==> key !in r
    ensures r.Keys == headers.Keys - {key} + (if AssignmentStores(headers - {key}, newKey) then {newKey} else {})
    ensures forall k | k in headers && k != key && k != newKey :: r[k] == headers[k]
  {
    var copy := headers - {key};
    if AssignmentStores(copy, newKey) then copy[newKey := headers[key]] else copy
  }

  /** Renaming a key to itself changes nothing, except that `__proto__` is lost. */
  lemma RenameToSelf(headers: map<string, string>, key: string)
    requires key in headers
    ensures key != ProtoKey ==> Renamed(headers, key, key) == headers
    ensures key == ProtoKey ==> Renamed(headers, key, key) == headers - {key}
  {
  }

  /**
   * Renaming onto a key that is already there loses one header, and so does
   * a rename onto `__proto__` that is not stored; any other rename keeps the count.
   */
  lemma RenamedSize(headers: map<string, string>, key: string, newKey: string)
    requires key in headers
    ensures newKey in headers && newKey != key ==> |Renamed(headers, key, newKey)| == |headers| - 1
    ensures !AssignmentStores(headers - {key}, newKey) ==> |Renamed(headers, key, newKey)| == |headers| - 1
    ensures (newKey !in headers || newKey == key) && AssignmentStores(headers - {key}, newKey) ==>
      |Renamed(headers, key, newKey)| == |headers|
  {
    var r := Renamed(headers, key, newKey);
    assert |headers.Keys - {key}| == |headers| - 1;
    if !AssignmentStores(headers - {key}, newKey) {
      assert r.Keys == headers.Keys - {key};
    } else if newKey in headers && newKey != key {
      assert r.Keys == headers.Keys - {key};
    } else if newKey == key {
      assert r.Keys == headers.Keys;
    } else {
      assert r.Keys == headers.Keys - {key} + {newKey};
    }
  }

  /** Value edit `{ ...headers, [key]: value }`: only that key's value changes. */
  function WithValue(headers: map<string, string>, key: string, value: string): (r: map<string, string>)
    ensures key in r && r[key] == value
    ensures r.Keys == headers.Keys + {key}
    ensures key in headers ==> r.Keys == headers.Keys
    ensures forall k | k in headers && k != key :: r[k] == headers[k]
  {
    headers[key := value]
  }

  /** Delete: exactly `key` goes. */
  function Deleted(headers: map<string, string>, key: string): (r: map<string, string>)
    ensures r.Keys == headers.Keys - {key}
    ensures forall k | k in r :: r[k] == headers[k]
  {
    headers - {key}
  }

  /** "Add Header" `{ ...headers, '': '' }`: the empty key maps to the empty value. */
  function WithBlankHeader(headers: map<string, string>): (r: map<string, string>)
    ensures "" in r && r[""] == ""
    ensures r.Keys == headers.Keys + {""}
    ensures forall k | k in headers && k != "" :: r[k] == headers[k]
  {
    headers["" := ""]
  }

  /** Adding a header grows the map by one unless the empty key is already there. */
  lemma BlankHeaderSize(headers: map<string, string>)
    ensures |WithBlankHeader(headers)| == if "" in headers then |headers| else |headers| + 1
  {
    var r := WithBlankHeader(headers);
    if "" in headers {
      assert r.Keys == headers.Keys;
    } else {
      assert r.Keys == headers.Keys + {""};
    }
  }

  /** `initialRequest.body || ''`: an absent body reads as the empty string. */
  function BodyText(body: Option<string>): string
  {
    match body
    case None => ""
    case Some(text) => text
  }

  /** The request the editor emits for `r`: `r` with an absent body made explicit and empty. */
  function Normalized(r: RequestMethod): RequestMethod
  {
    r.(body := Some(BodyText(r.body)))
  }

  /** The component's four `useState` fields. */
  class PanelState {
    var verb: Method
    var url: string
    var headers: map<string, string>
    var body: string

    /** The request the fields currently describe. */
    function Current(): RequestMethod
      reads this
    {
      RequestMethod(verb, url, headers, Some(body))
    }

    /** Mounting: GET, `''`, `{}` and `''` without an initial request, its fields otherwise. */
    constructor (initial: Option<RequestMethod>)
      ensures initial.None? ==> verb == GET && url == "" && headers == map[] && body == ""
      ensures initial.Some? ==> Current() == Normalized(initial.value)
    {
      match initial {
        case None =>
          verb, url, headers, body := GET, "", map[], "";
        case Some(r) =>
          verb, url, headers, body := r.verb, r.url, r.headers, BodyText(r.body);
      }
    }

    /** The effect on a new `request` prop: all four fields follow it; a missing prop changes nothing. */
    method Resync(initial: Option<RequestMethod>)
      modifies this
      ensures initial.None? ==> Current() == old(Current())
      ensures initial.Some? ==> Current() == Normalized(initial.value)
    {
      if initial.Some? {
        var r := initial.value;
        verb, url, headers, body := r.verb, r.url, r.headers, BodyText(r.body);
      }
    }

    method SelectMethod(m: Method)
      modifies this`verb
      ensures verb == m
    {
      verb := m;
    }

    method EditUrl(value: string)
      modifies this`url
      ensures url == value
    {
      url := value;
    }

    method EditBody(value: string)
      modifies this`body
      ensures body == value
    {
      body := value;
    }

    /** Renaming the key of an existing header row. */
    method RenameHeader(key: string, newKey: string)
      requires key in headers
      modifies this`headers
      ensures headers == Renamed(old(headers), key, newKey)
    {
      var copy := headers;
      var value := copy[key];
      copy := copy - {key};
      if AssignmentStores(copy, newKey) {
        copy := copy[newKey := value];
      }
      headers := copy;
    }

    method EditHeaderValue(key: string, value: string)
      modifies this`headers
      ensures headers == WithValue(old(headers), key, value)
    {
      headers := headers[key := value];
    }

    method DeleteHeader(key: string)
      modifies this`headers
      ensures headers == Deleted(old(headers), key)
    {
      headers := headers - {key};
    }

    method AddHeader()
      modifies this`headers
      ensures headers == WithBlankHeader(old(headers))
    {
      headers := headers["" := ""];
    }

    /** Send and Save both emit exactly the current fields. */
    method HandleSend() returns (emitted: RequestMethod)
      ensures emitted == Current()
    {
      emitted := RequestMethod(verb, url, headers, Some(body));
    }

    method HandleSave() returns (emitted: RequestMethod)
      ensures emitted == Current()
    {
      emitted := RequestMethod(verb, url, headers, Some(body));
    }
  }
}
