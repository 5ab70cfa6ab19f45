/** JSON values and references into a table of named schemas. */
module JsonPointer {
  import opened Prelude

  datatype Json =
    | Null
    | Bool(b: bool)
    | Num(n: real)
    | Str(s: string)
    | Arr(items: seq<Json>)
    | Obj(fields: map<string, Json>)

  // ------------------------------------------- RFC 6901, sections 3 and 4

  /** The reference tokens of a pointer's tail; None when a '~' is not followed by 0 or 1. */
  function Tokens(key: string): (r: Option<seq<string>>)
    ensures r.Some? ==> r.value != []
  {
    if key == "" then Some([""])
    else if key[0] == '~' && (|key| == 1 || (key[1] != '0' && key[1] != '1')) then None
    else
      var rest := Tokens(if key[0] == '~' then key[2..] else key[1..]);
      if rest.None? then None
      else if key[0] == '/' then Some([""] + rest.value)
      else
        var c := if key[0] != '~' then key[0] else if key[1] == '0' then '~' else '/';
        Some([[c] + rest.value[0]] + rest.value[1..])
  }

  /** The first token of a longer pointer. */
  lemma {:induction false} TokensSlash(p: string, q: string)
    requires '/' !in p && '~' !in p && Tokens(q).Some?
    ensures Tokens(p + "/" + q) == Some([p] + Tokens(q).value)
  {
    if p == "" {
      assert ("" + "/" + q)[1..] == q;
    } else {
      TokensSlash(p[1..], q);
      assert (p + "/" + q)[1..] == p[1..] + "/" + q;
      assert [p[0]] + p[1..] == p;
      assert Tokens(p + "/" + q).value == [p] + Tokens(q).value;
    }
  }

  /** Evaluating tokens against a value; the tables referred to hold objects only. */
  function Navigate(j: Json, tokens: seq<string>): Option<Json> {
    if tokens == [] then Some(j)
    else if j.Obj? && tokens[0] in j.fields then Navigate(j.fields[tokens[0]], tokens[1..])
    else None
  }

  /** A URI fragment: '#' alone, or '#' and a pointer. */
  function Resolve(doc: Json, ref: string): Option<Json> {
    if ref == "" || ref[0] != '#' then None
    else if |ref| == 1 then Some(doc)
    else if ref[1] != '/' then None
    else
      var t := Tokens(ref[2..]);
      if t.None? then None else Navigate(doc, t.value)
  }

  // ---------------------------------------------------- what the code does

  /** `strings.ReplaceAll` of a two-character pattern that cannot overlap itself. */
  function Replace(s: string, a: char, b: char, c: char): string {
    if |s| >= 2 && s[0] == a && s[1] == b then [c] + Replace(s[2..], a, b, c)
    else if s == "" then ""
    else [s[0]] + Replace(s[1..], a, b, c)
  }

  function CodeName(key: string): string {
    Replace(Replace(key, '~', '1', '/'), '~', '0', '~')
  }

  // ------------------------------------------------------------- agreement

  /** A single token: no slash, and every tilde starts an escape. */
  predicate SingleToken(key: string) {
    key == "" ||
    if key[0] == '~' then |key| >= 2 && (key[1] == '0' || key[1] == '1') && SingleToken(key[2..])
    else key[0] != '/' && SingleToken(key[1..])
  }

  lemma ReplaceOther(head: char, tail: string, a: char, b: char, c: char)
    requires head != a
    ensures Replace([head] + tail, a, b, c) == [head] + Replace(tail, a, b, c)
  {
    assert ([head] + tail)[1..] == tail;
  }

  lemma ReplacePair(tail: string, a: char, b: char, c: char)
    ensures Replace([a, b] + tail, a, b, c) == [c] + Replace(tail, a, b, c)
  {
    assert ([a, b] + tail)[2..] == tail;
  }

  /** How the code's two replacements go over the first character or escape of a reference. */
  lemma CodeNameStep(key: string)
    requires key != ""
    ensures key[0] != '~' ==> CodeName(key) == [key[0]] + CodeName(key[1..])
    ensures key[0] == '~' && |key| >= 2 && key[1] == '0' ==> CodeName(key) == ['~'] + CodeName(key[2..])
    ensures key[0] == '~' && |key| >= 2 && key[1] == '1' ==> CodeName(key) == ['/'] + CodeName(key[2..])
  {
    if key[0] != '~' {
      assert key == [key[0]] + key[1..];
      ReplaceOther(key[0], key[1..], '~', '1', '/');
      ReplaceOther(key[0], Replace(key[1..], '~', '1', '/'), '~', '0', '~');
    } else if |key| >= 2 && key[1] == '0' {
      var inner := Replace(key[2..], '~', '1', '/');
      assert key == ['~'] + (['0'] + key[2..]);
      ReplaceOther('0', key[2..], '~', '1', '/');
      assert Replace(key, '~', '1', '/') == ['~'] + Replace(key[1..], '~', '1', '/');
      assert key[1..] == ['0'] + key[2..];
      assert ['~'] + (['0'] + inner) == ['~', '0'] + inner;
      ReplacePair(inner, '~', '0', '~');
    } else if |key| >= 2 && key[1] == '1' {
      assert key == ['~', '1'] + key[2..];
      ReplacePair(key[2..], '~', '1', '/');
      ReplaceOther('/', Replace(key[2..], '~', '1', '/'), '~', '0', '~');
    }
  }

  lemma {:induction false} CodeNameWithoutTilde(key: string)
    requires '~' !in key
    ensures CodeName(key) == key
  {
    if key != "" {
      CodeNameStep(key);
      CodeNameWithoutTilde(key[1..]);
    }
  }

  lemma {:induction false} SingleTokenDecodes(key: string)
    requires SingleToken(key)
    ensures Tokens(key) == Some([CodeName(key)])
  {
    if key != "" {
      CodeNameStep(key);
      var rest := if key[0] == '~' then key[2..] else key[1..];
      SingleTokenDecodes(rest);
      assert Tokens(key).value == [CodeName(key)];
    }
  }

  lemma {:induction false} OneTokenIsSingle(key: string)
    requires Tokens(key).Some? && |Tokens(key).value| == 1
    ensures SingleToken(key)
  {
    if key != "" {
      OneTokenIsSingle(if key[0] == '~' then key[2..] else key[1..]);
    }
  }

  /** The two replacements of the code read a reference as RFC 6901 does exactly when the part after
      the prefix is a single well-formed token. */
  lemma CodeNameIsPointer(key: string)
    ensures Tokens(key) == Some([CodeName(key)]) <==> SingleToken(key)
  {
    if SingleToken(key) { SingleTokenDecodes(key); }
    if Tokens(key) == Some([CodeName(key)]) { OneTokenIsSingle(key); }
  }
}
