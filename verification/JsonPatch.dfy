/** JSON documents, pointers into them (RFC 6901) and the patch operation that adds a value (RFC 6902, section 4.1). */
module JsonPatch {
  import opened Wrappers
  import opened Decimals

  /** Resource quantities are strings in a document; here a quantity is the amount that it denotes. */
  datatype Json = Null | Text(text: string) | Quantity(amount: int)
                | Object(fields: map<string, Json>) | Array(items: seq<Json>)

  datatype Operation = Add(path: string, value: Json)

  /******* Pointers *******/

  /** The parts of a string between slashes. */
  function Split(s: string): (parts: seq<string>)
    ensures |parts| > 0
  {
    if s == "" then [""]
    else
      var n := |s| - 1;
      var parts := Split(s[..n]);
      if s[n] == '/' then parts + [""] else parts[..|parts| - 1] + [parts[|parts| - 1] + [s[n]]]
  }

  /** Section 4 of RFC 6901: "~1" stands for a slash, "~0" for a tilde, and a tilde must not stand alone. */
  function Unescape(token: string): Option<string> {
    if token == "" then Some("")
    else if token[0] != '~' then
      match Unescape(token[1..])
      case Some(rest) => Some([token[0]] + rest)
      case None => None
    else if |token| == 1 || (token[1] != '0' && token[1] != '1') then None
    else
      match Unescape(token[2..])
      case Some(rest) => Some([if token[1] == '0' then '~' else '/'] + rest)
      case None => None
  }

  function UnescapeAll(tokens: seq<string>): Option<seq<string>> {
    if tokens == [] then Some([])
    else
      match (Unescape(tokens[0]), UnescapeAll(tokens[1..]))
      case (Some(token), Some(rest)) => Some([token] + rest)
      case _ => None
  }

  function Tokens(pointer: string): Option<seq<string>> {
    if pointer == "" then Some([])
    else if pointer[0] != '/' then None
    else UnescapeAll(Split(pointer[1..]))
  }

  predicate Plain(token: string) {
    '/' !in token && '~' !in token
  }

  /** The parts when one more character follows. */
  function Extended(parts: seq<string>, c: char): seq<string>
    requires parts != []
  {
    if c == '/' then parts + [""] else parts[..|parts| - 1] + [parts[|parts| - 1] + [c]]
  }

  lemma SplitStep(s: string, c: char)
    ensures Split(s + [c]) == Extended(Split(s), c)
  {
    assert (s + [c])[..|s|] == s;
  }

  lemma ExtendedConcat(a: seq<string>, b: seq<string>, c: char)
    requires b != []
    ensures Extended(a + b, c) == a + Extended(b, c)
  {
  }

  lemma {:induction false} SplitConcat(a: string, b: string)
    ensures Split(a + "/" + b) == Split(a) + Split(b)
    decreases |b|, 1
  {
    if b == "" {
      SplitStep(a, '/');
      assert a + "/" + b == a + ['/'];
    } else {
      SplitConcatStep(a, b);
    }
  }

  lemma {:induction false} SplitConcatStep(a: string, b: string)
    requires b != ""
    ensures Split(a + "/" + b) == Split(a) + Split(b)
    decreases |b|, 0
  {
    hide Split, Extended;
    var n := |b| - 1;
    var s := a + "/" + b[..n];
    assert a + "/" + b == s + [b[n]] && b == b[..n] + [b[n]];
    SplitConcat(a, b[..n]);
    SplitStep(s, b[n]);
    SplitStep(b[..n], b[n]);
    ExtendedConcat(Split(a), Split(b[..n]), b[n]);
  }

  lemma {:induction false} SplitOne(s: string)
    ensures |Split(s)| == 1 <==> '/' !in s
    ensures '/' !in s ==> Split(s) == [s]
  {
    if s != "" {
      SplitOne(s[..|s| - 1]);
      assert s == s[..|s| - 1] + [s[|s| - 1]];
    }
  }

  lemma {:induction false} UnescapePlain(token: string)
    ensures '~' !in token ==> Unescape(token) == Some(token)
    ensures '~' in token && Unescape(token).Some? ==> |Unescape(token).value| < |token|
    ensures Unescape(token).Some? ==> |Unescape(token).value| <= |token|
  {
    if token != "" {
      if token[0] != '~' {
        UnescapePlain(token[1..]);
        assert token == [token[0]] + token[1..];
      } else if |token| > 1 {
        UnescapePlain(token[2..]);
      }
    }
  }

  lemma {:induction false} UnescapeConcat(a: seq<string>, b: seq<string>)
    ensures UnescapeAll(a + b)
         == match (UnescapeAll(a), UnescapeAll(b)) case (Some(x), Some(y)) => Some(x + y) case _ => None
  {
    if a == [] {
      assert a + b == b;
      if UnescapeAll(b).Some? {
        assert [] + UnescapeAll(b).value == UnescapeAll(b).value;
      }
    } else {
      assert (a + b)[1..] == a[1..] + b;
      UnescapeConcat(a[1..], b);
      if UnescapeAll(a).Some? && UnescapeAll(b).Some? {
        var t, x, y := Unescape(a[0]).value, UnescapeAll(a[1..]).value, UnescapeAll(b).value;
        assert [t] + (x + y) == [t] + x + y;
      }
    }
  }

  lemma {:induction false} UnescapeLength(tokens: seq<string>)
    ensures UnescapeAll(tokens).Some? ==> |UnescapeAll(tokens).value| == |tokens|
  {
    if tokens != [] {
      UnescapeLength(tokens[1..]);
    }
  }

  lemma UnescapeOne(token: string)
    ensures UnescapeAll([token]) == match Unescape(token) case Some(t) => Some([t]) case None => None
  {
    assert [token][1..] == [];
    if Unescape(token).Some? {
      assert [Unescape(token).value] + [] == [Unescape(token).value];
    }
  }

  lemma {:induction false} UnescapeTail(a: string, rest: string)
    requires '~' !in a && Unescape(rest).Some?
    ensures Unescape(a + rest) == Some(a + Unescape(rest).value)
  {
    if a == "" {
      assert a + rest == rest && a + Unescape(rest).value == Unescape(rest).value;
    } else {
      assert (a + rest)[1..] == a[1..] + rest;
      UnescapeTail(a[1..], rest);
      assert a + Unescape(rest).value == [a[0]] + (a[1..] + Unescape(rest).value);
    }
  }

  /** "~1" becomes a slash and "~0" a tilde. */
  lemma UnescapePair(a: string, b: string)
    requires '~' !in a && '~' !in b
    ensures Unescape(a + ("~1" + b)) == Some(a + ("/" + b))
    ensures Unescape(a + ("~0" + b)) == Some(a + ("~" + b))
  {
    UnescapePlain(b);
    assert ("~1" + b)[2..] == b && ("~0" + b)[2..] == b;
    UnescapeTail(a, "~1" + b);
    UnescapeTail(a, "~0" + b);
  }

  /** A slash starts each token. */
  lemma PlainPair(a: string, b: string)
    requires Plain(a) && Plain(b)
    ensures Tokens("/" + (a + "/" + b)) == Some([a, b])
  {
    hide Split, UnescapeAll;
    SplitConcat(a, b);
    SplitOne(a);
    SplitOne(b);
    UnescapeConcat([a], [b]);
    UnescapeOne(a);
    UnescapeOne(b);
    UnescapePlain(a);
    UnescapePlain(b);
    assert ("/" + (a + "/" + b))[1..] == a + "/" + b;
    assert [a] + [b] == [a, b];
  }

  /******* Adding a value *******/

  /** Section 4 of RFC 6901: an array index has no leading zeros. */
  function Index(token: string): Option<nat> {
    var n := ParseNat(token);
    if n.Some? && token == Decimal(n.value) then n else None
  }

  /** The target's parent must exist; a member that exists is replaced, and an array's item is inserted. */
  function AddAt(doc: Json, path: seq<string>, value: Json): Option<Json>
    decreases |path|
  {
    if path == [] then Some(value)
    else
      match doc
      case Object(fields) =>
        if |path| == 1 then Some(Object(fields[path[0] := value]))
        else if path[0] !in fields then None
        else
          (match AddAt(fields[path[0]], path[1..], value)
           case Some(field) => Some(Object(fields[path[0] := field]))
           case None => None)
      case Array(items) =>
        if |path| == 1 && path[0] == "-" then Some(Array(items + [value]))
        else
          (match Index(path[0])
           case None => None
           case Some(i) =>
             if |path| == 1 then
               if i <= |items| then Some(Array(items[..i] + [value] + items[i..])) else None
             else if i >= |items| then None
             else
               (match AddAt(items[i], path[1..], value)
                case Some(item) => Some(Array(items[i := item]))
                case None => None))
      case _ => None
  }

  /** The value that a pointer refers to, if there is one. */
  function Get(doc: Json, path: seq<string>): Option<Json>
    decreases |path|
  {
    if path == [] then Some(doc)
    else
      match doc
      case Object(fields) => if path[0] in fields then Get(fields[path[0]], path[1..]) else None
      case Array(items) =>
        (match Index(path[0])
         case Some(i) => if i < |items| then Get(items[i], path[1..]) else None
         case None => None)
      case _ => None
  }

  /** What was added is found where it was added, unless it was appended to an array. */
  lemma {:induction false} AddThenGet(doc: Json, path: seq<string>, value: Json)
    requires AddAt(doc, path, value).Some? && (path == [] || path[|path| - 1] != "-")
    ensures Get(AddAt(doc, path, value).value, path) == Some(value)
    decreases |path|
  {
    if |path| > 1 {
      assert path[1..][|path[1..]| - 1] == path[|path| - 1];
      match doc
      case Object(fields) => AddThenGet(fields[path[0]], path[1..], value);
      case Array(items) => AddThenGet(items[Index(path[0]).value], path[1..], value);
    } else if |path| == 1 {
      assert path[1..] == [];
    }
  }

  function Apply(doc: Json, op: Operation): Option<Json> {
    match Tokens(op.path)
    case Some(path) => AddAt(doc, path, op.value)
    case None => None
  }

  /** Operations are applied one after the other; one that fails makes the whole patch fail. */
  function ApplyAll(doc: Json, ops: seq<Operation>): Option<Json> {
    if ops == [] then Some(doc)
    else
      match ApplyAll(doc, ops[..|ops| - 1])
      case Some(earlier) => Apply(earlier, ops[|ops| - 1])
      case None => None
  }
}
