/**
 * `JSON.stringify` with a replacer array, and the endpoint's
 * `stableStringify`, which passes the sorted top-level keys as that array.
 */
module JsonText {
  import opened Wrappers
  import opened JsValue
  import Text

  function HexDigit(d: nat): char
    requires d < 16
  {
    "0123456789abcdef"[d]
  }

  /** How `JSON.stringify` writes one character inside a string literal. */
  function EscapeChar(c: char): string {
    if c == '"' then "\\\""
    else if c == '\\' then "\\\\"
    else if c == '\U{0008}' then "\\b"
    else if c == '\U{000C}' then "\\f"
    else if c == '\n' then "\\n"
    else if c == '\r' then "\\r"
    else if c == '\t' then "\\t"
    else if c < '\U{0020}' then "\\u00" + [HexDigit(c as int / 16), HexDigit(c as int % 16)]
    else [c]
  }

  function Escaped(s: string): string {
    if s == [] then [] else EscapeChar(s[0]) + Escaped(s[1..])
  }

  /** A JSON string literal. */
  function Quote(s: string): string {
    "\"" + Escaped(s) + "\""
  }

  /**
   * `JSON.stringify(v, allow)` where `allow` is an array of property names:
   * at every depth an object is written with exactly the listed keys it
   * holds, in the list's order. `None` stands for the `undefined` result.
   * Number formatting is JavaScript's own and is passed in as `numberText`.
   */
  function Ser(v: Value, allow: seq<string>, numberText: real -> string): (r: Option<string>)
    ensures r.None? <==> v == Undefined
    decreases v, 3
  {
    match v
    case Undefined => None
    case Null => Some("null")
    case Bool(b) => Some(if b then "true" else "false")
    case Num(x) => Some(numberText(x))
    case NaN => Some("null")
    case Infinity(_) => Some("null")
    case Str(s) => Some(Quote(s))
    case Arr(items) => Some("[" + Text.JoinWith(SerItems(items, allow, numberText), ",") + "]")
    case Obj(fields) => Some(SerObject(fields, allow, numberText))
  }

  /** Array elements; `undefined` elements are written as `null`. */
  function SerItems(items: seq<Value>, allow: seq<string>, numberText: real -> string): (r: seq<string>)
    ensures |r| == |items|
    decreases items, 2
  {
    if items == [] then []
    else
      var head := match Ser(items[0], allow, numberText)
        case Some(t) => t
        case None => "null";
      [head] + SerItems(items[1..], allow, numberText)
  }

  /** An object written with the allowed keys only. */
  function SerObject(fields: seq<(string, Value)>, allow: seq<string>, numberText: real -> string): string
    decreases Obj(fields), 2
  {
    "{" + Text.JoinWith(Members(fields, allow, allow, numberText), ",") + "}"
  }

  /** `"key":value` for each key of `keys` the object binds to something other than `undefined`. */
  function Members(fields: seq<(string, Value)>, keys: seq<string>, allow: seq<string>, numberText: real -> string): seq<string>
    decreases Obj(fields), 1, |keys|
  {
    if keys == [] then []
    else
      var rest := Members(fields, keys[1..], allow, numberText);
      var i := IndexOf(fields, keys[0]);
      if i == |fields| then rest
      else
        assert fields[i] in fields;
        match Ser(fields[i].1, allow, numberText)
        case None => rest
        case Some(t) => [Quote(keys[0]) + ":" + t] + rest
  }

  /** Position of the first binding of `k`, or the length when there is none. */
  function IndexOf(fields: seq<(string, Value)>, k: string): (i: nat)
    ensures i <= |fields|
    ensures i < |fields| ==> fields[i].0 == k && Lookup(fields, k) == fields[i].1
    ensures i == |fields| ==> Lookup(fields, k) == Undefined
  {
    if fields == [] then 0
    else if fields[0].0 == k then 0
    else 1 + IndexOf(fields[1..], k)
  }

  /** An object's members are exactly the keys it binds, looked up by `Lookup`. */
  lemma {:induction false} MembersOfAbsentKeys(fields: seq<(string, Value)>, keys: seq<string>, allow: seq<string>, numberText: real -> string)
    requires forall j :: 0 <= j < |keys| ==> Lookup(fields, keys[j]) == Undefined
    ensures Members(fields, keys, allow, numberText) == []
  {
    if keys != [] {
      MembersOfAbsentKeys(fields, keys[1..], allow, numberText);
      var i := IndexOf(fields, keys[0]);
      if i < |fields| {
        assert Ser(fields[i].1, allow, numberText) == None;
      }
    }
  }

  /** Code-point lexicographic order on strings. */
  predicate LexLe(a: string, b: string) {
    if a == [] then true
    else if b == [] then false
    else if a[0] != b[0] then a[0] < b[0]
    else LexLe(a[1..], b[1..])
  }

  lemma {:induction false} LexLeTotal(a: string, b: string)
    ensures LexLe(a, b) || LexLe(b, a)
  {
    if a != [] && b != [] && a[0] == b[0] {
      LexLeTotal(a[1..], b[1..]);
    }
  }

  predicate Sorted(xs: seq<string>) {
    forall i :: 0 <= i < |xs| - 1 ==> LexLe(xs[i], xs[i + 1])
  }

  /** Insert `x` before the first element it does not exceed. */
  function Insert(x: string, xs: seq<string>): (r: seq<string>)
    requires Sorted(xs)
    ensures Sorted(r)
    ensures multiset(r) == multiset(xs) + multiset{x}
    ensures r != [] && (r[0] == x || (xs != [] && r[0] == xs[0]))
  {
    if xs == [] || LexLe(x, xs[0]) then [x] + xs
    else
      LexLeTotal(x, xs[0]);
      var rest := Insert(x, xs[1..]);
      assert xs == [xs[0]] + xs[1..];
      [xs[0]] + rest
  }

  /** `keys.sort()`: a sorted permutation of `keys`. */
  function SortStrings(keys: seq<string>): (r: seq<string>)
    ensures Sorted(r)
    ensures multiset(r) == multiset(keys)
  {
    if keys == [] then []
    else
      assert keys == [keys[0]] + keys[1..];
      Insert(keys[0], SortStrings(keys[1..]))
  }

  /** `Object.keys(o)`. */
  function Keys(fields: seq<(string, Value)>): seq<string> {
    seq(|fields|, i requires 0 <= i < |fields| => fields[i].0)
  }

  /** `JSON.stringify(o, Object.keys(o).sort())`. */
  function StableStringify(fields: seq<(string, Value)>, numberText: real -> string): string {
    SerObject(fields, SortStrings(Keys(fields)), numberText)
  }

  lemma SortModelUser()
    ensures SortStrings(["model", "user"]) == ["model", "user"]
  {
    assert ["model", "user"][1..] == ["user"];
    assert SortStrings(["user"]) == ["user"] by {
      assert ["user"][1..] == [];
    }
    assert LexLe("model", "user");
  }

  lemma QuotePlain(s: string)
    requires forall i :: 0 <= i < |s| ==> 'a' <= s[i] <= 'z'
    ensures Quote(s) == "\"" + s + "\""
  {
    EscapedPlain(s);
  }

  lemma {:induction false} EscapedPlain(s: string)
    requires forall i :: 0 <= i < |s| ==> 'a' <= s[i] <= 'z'
    ensures Escaped(s) == s
  {
    if s != [] {
      EscapedPlain(s[1..]);
      assert EscapeChar(s[0]) == [s[0]];
      assert s == [s[0]] + s[1..];
    }
  }

  /** Lower-case ASCII letters only, so `JSON.stringify` writes the string between plain quotes. */
  predicate PlainKey(k: string) {
    forall i :: 0 <= i < |k| ==> 'a' <= k[i] <= 'z'
  }

  /**
   * A two-key replacer list applied to an object binding a string under its
   * first key and an object that serialises as `{}` under its second.
   */
  lemma {:induction false} TwoMembers(a: string, b: string, model: string, user: seq<(string, Value)>, allow: seq<string>, numberText: real -> string)
    requires PlainKey(a) && PlainKey(b) && a != b && allow == [a, b]
    requires SerObject(user, allow, numberText) == "{}"
    ensures Members([(a, Str(model)), (b, Obj(user))], allow, allow, numberText)
         == ["\"" + a + "\":" + Quote(model), "\"" + b + "\":{}"]
  {
    var fields := [(a, Str(model)), (b, Obj(user))];
    assert IndexOf(fields, b) == 1 by {
      assert fields[1..][0].0 == b;
    }
    assert allow[1..][1..] == [];
    assert Members(fields, allow[1..][1..], allow, numberText) == [];
    MembersCons(fields, allow[1..], allow, numberText, "{}");
    QuotePlain(b);
    assert Quote(b) + ":" + "{}" == "\"" + b + "\":{}";
    assert IndexOf(fields, a) == 0;
    MembersCons(fields, allow, allow, numberText, Quote(model));
    QuotePlain(a);
    assert Quote(a) + ":" + Quote(model) == "\"" + a + "\":" + Quote(model);
  }

  lemma ModelMembers(model: string, user: seq<(string, Value)>, allow: seq<string>, numberText: real -> string)
    requires allow == ["model", "user"]
    requires SerObject(user, allow, numberText) == "{}"
    ensures Members([("model", Str(model)), ("user", Obj(user))], allow, allow, numberText)
         == ["\"model\":" + Quote(model), "\"user\":{}"]
  {
    ModelUserPlain();
    TwoMembers("model", "user", model, user, allow, numberText);
  }

  /** The two keys of the cache-key object are plain, distinct and written between quotes. */
  lemma ModelUserPlain()
    ensures PlainKey("model") && PlainKey("user") && "model" != "user"
    ensures "\"" + "model" + "\":" == "\"model\":"
    ensures "\"" + "user" + "\":{}" == "\"user\":{}"
  {
  }

  /** A key bound to a value that is written contributes its member in front of the rest. */
  lemma MembersCons(fields: seq<(string, Value)>, keys: seq<string>, allow: seq<string>, numberText: real -> string, t: string)
    requires keys != [] && IndexOf(fields, keys[0]) < |fields|
    requires Ser(fields[IndexOf(fields, keys[0])].1, allow, numberText) == Some(t)
    ensures Members(fields, keys, allow, numberText) == [Quote(keys[0]) + ":" + t] + Members(fields, keys[1..], allow, numberText)
  {
  }

  /**
   * The cache key of a `{model, user}` object: the replacer list
   * `['model', 'user']` is applied at every depth, so the `user` object keeps
   * none of its own properties and the key is determined by the model name.
   */
  lemma ModelUserKey(model: string, user: seq<(string, Value)>, numberText: real -> string)
    requires Lookup(user, "model") == Undefined && Lookup(user, "user") == Undefined
    ensures StableStringify([("model", Str(model)), ("user", Obj(user))], numberText)
         == "{\"model\":" + Quote(model) + ",\"user\":{}}"
  {
    var fields := [("model", Str(model)), ("user", Obj(user))];
    StableKeyList(fields, model, user, numberText);
    EmptyObjectText(user, ["model", "user"], numberText);
    TopObjectText(model, user, numberText);
    Assemble(Quote(model));
  }

  lemma StableKeyList(fields: seq<(string, Value)>, model: string, user: seq<(string, Value)>, numberText: real -> string)
    requires fields == [("model", Str(model)), ("user", Obj(user))]
    ensures StableStringify(fields, numberText) == SerObject(fields, ["model", "user"], numberText)
  {
    assert Keys(fields) == ["model", "user"] by {
      assert |Keys(fields)| == 2 && Keys(fields)[0] == "model" && Keys(fields)[1] == "user";
    }
    SortModelUser();
  }

  lemma TopObjectText(model: string, user: seq<(string, Value)>, numberText: real -> string)
    requires SerObject(user, ["model", "user"], numberText) == "{}"
    ensures SerObject([("model", Str(model)), ("user", Obj(user))], ["model", "user"], numberText)
         == "{" + (("\"model\":" + Quote(model)) + "," + "\"user\":{}") + "}"
  {
    var fields := [("model", Str(model)), ("user", Obj(user))];
    ModelMembers(model, user, ["model", "user"], numberText);
    var ms := ["\"model\":" + Quote(model), "\"user\":{}"];
    var m := Members(fields, ["model", "user"], ["model", "user"], numberText);
    assert m == ms;
    assert Text.JoinWith(ms, ",") == ms[0] + "," + ms[1] by {
      assert ms[1..] == [ms[1]];
    }
  }

  lemma Assemble(q: string)
    ensures "{" + (("\"model\":" + q) + "," + "\"user\":{}") + "}" == "{\"model\":" + q + ",\"user\":{}}"
  {
    assert "{" + "\"model\":" == "{\"model\":";
    assert "," + "\"user\":{}" + "}" == ",\"user\":{}}";
  }

  lemma EmptyObjectText(user: seq<(string, Value)>, allow: seq<string>, numberText: real -> string)
    requires allow == ["model", "user"]
    requires Lookup(user, "model") == Undefined && Lookup(user, "user") == Undefined
    ensures SerObject(user, allow, numberText) == "{}"
  {
    MembersOfAbsentKeys(user, allow, allow, numberText);
  }
}
