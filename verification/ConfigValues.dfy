/**
  Decoded `config.toml` values, the paths into them, and the masking of
  credentials (`masked`, `is_secret_name` in config_form.rs). An object is a
  map: two tables with the same entries are the same value, whatever the order
  the entries are visited in.
 */
module ConfigValues {
  import opened Results
  import opened Text

  datatype Value =
    | Null
    | Bool(b: bool)
    | Int(i: int)
    | Float(f: real)
    | Str(s: string)
    | Arr(items: seq<Value>)
    | Obj(table: map<string, Value>)

  /** Names to follow from a table into the next. */
  type Key = seq<string>

  const MASK: string := "••••••••"

  // ------------------------------------------------------------------- paths

  /** The value `key` leads to from `value`. */
  function At(value: Value, key: Key): Option<Value>
    decreases |key|
  {
    if key == [] then Some(value)
    else if value.Obj? && key[0] in value.table then At(value.table[key[0]], key[1..])
    else None
  }

  lemma {:induction false} AtAppend(value: Value, a: Key, b: Key)
    ensures At(value, a + b) == if At(value, a).Some? then At(At(value, a).value, b) else None
    decreases |a|
  {
    if a == [] {
      assert a + b == b;
    } else {
      assert (a + b)[0] == a[0] && (a + b)[1..] == a[1..] + b;
      if value.Obj? && a[0] in value.table {
        AtAppend(value.table[a[0]], a[1..], b);
      }
    }
  }

  /** Every prefix of a path with a value has one, and the proper ones are tables. */
  lemma AtPrefix(value: Value, p: Key, k: Key)
    requires p <= k && At(value, k).Some?
    ensures At(value, p).Some?
    ensures At(At(value, p).value, k[|p|..]) == At(value, k)
    ensures p < k ==> At(value, p).value.Obj? && k[|p|] in At(value, p).value.table
  {
    assert k == p + k[|p|..];
    AtAppend(value, p, k[|p|..]);
  }

  /** One step below a table. */
  lemma AtChild(value: Value, p: Key, name: string)
    requires At(value, p).Some? && At(value, p).value.Obj?
    ensures At(value, p + [name]) ==
            var t := At(value, p).value.table; if name in t then Some(t[name]) else None
  {
    AtAppend(value, p, [name]);
    var t := At(value, p).value;
    if name in t.table {
      assert [name][1..] == [];
      assert At(t, [name]) == At(t.table[name], []);
    }
  }

  // ------------------------------------------------------------- credentials

  function ToAsciiLower(c: char): char {
    if 'A' <= c <= 'Z' then (c as int + 32) as char else c
  }

  function Normalized(name: string): string {
    seq(|name|, i requires 0 <= i < |name| => if name[i] == '-' then '_' else ToAsciiLower(name[i]))
  }

  const SECRET_WORDS: seq<string> := [
    "token", "secret", "password", "passwd", "api_key", "apikey", "authorization", "credential", "private_key"
  ]

  /** The name holds one of the words for credentials, in any case and with either dash. */
  predicate IsSecretName(name: string) {
    exists i :: 0 <= i < |SECRET_WORDS| && Contains(Normalized(name), SECRET_WORDS[i])
  }

  /** `value` under the name `name`; an array passes the name on to its items. */
  function Masked(name: string, value: Value): Value
    decreases value
  {
    if IsSecretName(name) && !value.Obj? then Str(MASK)
    else match value
      case Obj(table) => Obj(map n | n in table :: Masked(n, table[n]))
      case Arr(items) => Arr(seq(|items|, i requires 0 <= i < |items| => Masked(name, items[i])))
      case _ => value
  }

  /**
    Two values of the key `name` that differ only in credentials: in non-table
    values of credential-named keys, at any depth through tables and arrays.
   */
  ghost predicate DifferInCredentials(name: string, a: Value, b: Value)
    decreases a
  {
    if IsSecretName(name) && !a.Obj? && !b.Obj? then true
    else if a.Obj? && b.Obj? then
      && a.table.Keys == b.table.Keys
      && forall n :: n in a.table ==> DifferInCredentials(n, a.table[n], b.table[n])
    else if a.Arr? && b.Arr? then
      && |a.items| == |b.items|
      && forall i :: 0 <= i < |a.items| ==> DifferInCredentials(name, a.items[i], b.items[i])
    else a == b
  }

  /** Masking hides exactly the credentials: no more, no less. */
  lemma {:induction false} MaskingHidesCredentials(name: string, a: Value, b: Value)
    ensures Masked(name, a) == Masked(name, b) <==> DifferInCredentials(name, a, b)
    decreases a
  {
    if IsSecretName(name) && !a.Obj? && !b.Obj? {
    } else if a.Obj? && b.Obj? {
      var ma, mb := Masked(name, a).table, Masked(name, b).table;
      assert ma.Keys == a.table.Keys && mb.Keys == b.table.Keys;
      forall n | n in a.table && n in b.table
        ensures ma[n] == mb[n] <==> DifferInCredentials(n, a.table[n], b.table[n])
      {
        MaskingHidesCredentials(n, a.table[n], b.table[n]);
      }
      if DifferInCredentials(name, a, b) {
        assert ma == mb;
      }
    } else if a.Arr? && b.Arr? {
      var ma, mb := Masked(name, a).items, Masked(name, b).items;
      forall i | 0 <= i < |a.items| && i < |b.items|
        ensures ma[i] == mb[i] <==> DifferInCredentials(name, a.items[i], b.items[i])
      {
        MaskingHidesCredentials(name, a.items[i], b.items[i]);
      }
    }
  }

  /** Masking what is masked already changes nothing. */
  lemma {:induction false} MaskingTwice(name: string, v: Value)
    ensures Masked(name, Masked(name, v)) == Masked(name, v)
    decreases v
  {
    if IsSecretName(name) && !v.Obj? {
    } else if v.Obj? {
      var m := Masked(name, v);
      forall n | n in v.table
        ensures Masked(n, m.table[n]) == m.table[n]
      {
        MaskingTwice(n, v.table[n]);
      }
      assert Masked(name, m).table == m.table;
    } else if v.Arr? {
      var m := Masked(name, v);
      forall i | 0 <= i < |v.items|
        ensures Masked(name, m.items[i]) == m.items[i]
      {
        MaskingTwice(name, v.items[i]);
      }
    }
  }

  // ------------------------------------------------------------ config.apply

  /**
    `config.apply`'s `set` of one key: tables missing on the way are made, a
    value on the way that is no table refuses the change, and `None` removes
    the key.
   */
  function SetKey(value: Value, key: Key, next: Option<Value>): (r: Result<Value, string>)
    requires key != []
    ensures r.Ok? ==> r.value.Obj?
    decreases |key|
  {
    if !value.Obj? then Err("is not a table")
    else if |key| == 1 then
      Ok(Obj(if next.Some? then value.table[key[0] := next.value] else value.table - {key[0]}))
    else
      var child := if key[0] in value.table then value.table[key[0]] else Obj(map[]);
      match SetKey(child, key[1..], next)
      case Err(e) => Err(e)
      case Ok(v) => Ok(Obj(value.table[key[0] := v]))
  }

  /** Nothing but tables lies on the way to `key`. */
  ghost predicate Open(value: Value, key: Key) {
    forall n :: 0 <= n < |key| && At(value, key[..n]).Some? ==> At(value, key[..n]).value.Obj?
  }

  lemma {:induction false} OpenChild(value: Value, key: Key)
    requires key != [] && value.Obj?
    ensures Open(value, key) <==>
            (key[0] in value.table && |key| > 1 ==> Open(value.table[key[0]], key[1..]))
  {
    if key[0] in value.table && |key| > 1 {
      var child := value.table[key[0]];
      forall n | 0 <= n < |key| - 1
        ensures At(child, key[1..][..n]) == At(value, key[..n + 1])
      {
        assert key[..n + 1][0] == key[0] && key[..n + 1][1..] == key[1..][..n];
      }
      if Open(value, key) {
        forall n | 0 <= n < |key[1..]| && At(child, key[1..][..n]).Some?
          ensures At(child, key[1..][..n]).value.Obj?
        {
          assert At(value, key[..n + 1]).Some?;
        }
      }
      if Open(child, key[1..]) {
        forall n | 0 <= n < |key| && At(value, key[..n]).Some?
          ensures At(value, key[..n]).value.Obj?
        {
          if n > 0 {
            assert At(child, key[1..][..n - 1]) == At(value, key[..n]);
          }
        }
      }
    } else if key[0] !in value.table {
      forall n | 0 < n < |key|
        ensures At(value, key[..n]).None?
      {
        assert key[..n][0] == key[0];
      }
    }
  }

  /** A `set` goes through exactly when only tables are on the way. */
  lemma {:induction false} SetKeyAccepted(value: Value, key: Key, next: Option<Value>)
    requires key != []
    ensures SetKey(value, key, next).Ok? <==> Open(value, key)
    decreases |key|
  {
    if !value.Obj? {
      assert At(value, key[..0]).Some?;
    } else {
      OpenChild(value, key);
      if |key| > 1 {
        if key[0] in value.table {
          SetKeyAccepted(value.table[key[0]], key[1..], next);
        } else {
          SetKeyAccepted(Obj(map[]), key[1..], next);
          OpenEmpty(key[1..]);
        }
      }
    }
  }

  lemma OpenEmpty(key: Key)
    ensures Open(Obj(map[]), key)
  {
    forall n | 0 <= n < |key| && At(Obj(map[]), key[..n]).Some?
      ensures At(Obj(map[]), key[..n]).value.Obj?
    {
      assert n == 0;
    }
  }

  /** What a path holds after a `set`: the new value at the key and below it, */
  lemma {:induction false} SetKeyAtAndBelow(value: Value, key: Key, next: Option<Value>, below: Key)
    requires key != [] && SetKey(value, key, next).Ok?
    ensures At(SetKey(value, key, next).value, key + below) ==
            if next.Some? then At(next.value, below) else None
    decreases |key|
  {
    var q := key + below;
    assert q[0] == key[0] && q[1..] == key[1..] + below;
    if |key| == 1 {
      assert q[1..] == below;
    } else {
      var child := if key[0] in value.table then value.table[key[0]] else Obj(map[]);
      SetKeyAtAndBelow(child, key[1..], next, below);
    }
  }

  /** tables on the way to it, */
  lemma {:induction false} SetKeyAbove(value: Value, key: Key, next: Option<Value>, n: nat)
    requires n < |key| && SetKey(value, key, next).Ok?
    ensures At(SetKey(value, key, next).value, key[..n]).Some?
    ensures At(SetKey(value, key, next).value, key[..n]).value.Obj?
    decreases |key|
  {
    if n > 0 {
      var child := if key[0] in value.table then value.table[key[0]] else Obj(map[]);
      SetKeyAbove(child, key[1..], next, n - 1);
      assert key[..n][0] == key[0] && key[..n][1..] == key[1..][..n - 1];
    }
  }

  /** and what it held before anywhere else. */
  lemma {:induction false} SetKeyElsewhere(value: Value, key: Key, next: Option<Value>, q: Key)
    requires key != [] && SetKey(value, key, next).Ok?
    requires !(key <= q) && !(q <= key)
    ensures At(SetKey(value, key, next).value, q) == At(value, q)
    decreases |key|
  {
    var after := SetKey(value, key, next).value;
    if q[0] != key[0] {
      assert q[0] in after.table <==> q[0] in value.table;
    } else if |key| > 1 {
      var child := if key[0] in value.table then value.table[key[0]] else Obj(map[]);
      SetKeyElsewhere(child, key[1..], next, q[1..]);
      if key[0] !in value.table {
        assert q[1..] != [];
      }
    }
  }
}
