/**
 * `maskSensitiveData`: a copy of a JSON value in which every property whose
 * lowercased name is a sensitive key is replaced by the mask text, at every
 * depth. Values are immutable here, so the copy leaves its input as it was.
 */
module Redaction {
  import opened Json
  import opened Strings
  import opened Wrappers

  const DefaultSensitiveHeaders: seq<string> := ["authorization", "cookie", "set-cookie"]
  const DefaultSensitiveParams: seq<string> := ["password", "token", "secret", "key"]
  const DefaultMaskText: string := "[REDACTED]"

  /** `[...(sensitiveHeaders || []), ...(sensitiveParams || [])].map(k => k.toLowerCase())`. */
  function SensitiveKeys(headers: Option<seq<string>>, params: Option<seq<string>>): (keys: seq<string>)
    ensures |keys| == |headers.GetOr([])| + |params.GetOr([])|
    ensures forall i :: 0 <= i < |keys| ==> keys[i] == Lower((headers.GetOr([]) + params.GetOr([]))[i])
  {
    var all := headers.GetOr([]) + params.GetOr([]);
    seq(|all|, i requires 0 <= i < |all| => Lower(all[i]))
  }

  /** `maskText || '[REDACTED]'`. */
  function MaskText(maskText: Option<string>): (m: string)
    ensures m != ""
    ensures maskText.Some? && maskText.value != "" ==> m == maskText.value
  {
    if maskText.Some? && maskText.value != "" then maskText.value else DefaultMaskText
  }

  predicate Sensitive(key: string, keys: seq<string>) {
    Lower(key) in keys
  }

  /**
   * The redacted copy: anything but an object is returned as is; an object
   * keeps its keys, sensitive ones mapped to the mask text, nested objects
   * redacted in turn and every other value kept.
   */
  function Redact(v: Val, keys: seq<string>, mask: string): (r: Val)
    ensures !v.Obj? ==> r == v
    ensures v.Obj? <==> r.Obj?
    ensures v.Obj? ==> r.fields.Keys == v.fields.Keys
    ensures v.Obj? ==> forall k :: k in v.fields && Sensitive(k, keys) ==> r.fields[k] == Str(mask)
    ensures v.Obj? ==> forall k :: k in v.fields && !Sensitive(k, keys) && !v.fields[k].Obj? ==> r.fields[k] == v.fields[k]
    decreases v
  {
    match v
    case Obj(fields) =>
      Obj(map k | k in fields ::
        if Sensitive(k, keys) then Str(mask)
        else if fields[k].Obj? then Redact(fields[k], keys, mask)
        else fields[k])
    case _ => v
  }

  /** No sensitive key at any depth holds anything but the mask text. */
  ghost predicate Masked(v: Val, keys: seq<string>, mask: string)
    decreases v
  {
    v.Obj? ==> forall k :: k in v.fields ==>
      if Sensitive(k, keys) then v.fields[k] == Str(mask) else Masked(v.fields[k], keys, mask)
  }

  /** The redacted copy is masked all the way down. */
  lemma {:induction false} RedactMasks(v: Val, keys: seq<string>, mask: string)
    ensures Masked(Redact(v, keys, mask), keys, mask)
    decreases v
  {
    if v.Obj? {
      var r := Redact(v, keys, mask);
      forall k | k in r.fields && !Sensitive(k, keys)
        ensures Masked(r.fields[k], keys, mask)
      {
        if v.fields[k].Obj? {
          RedactMasks(v.fields[k], keys, mask);
        }
      }
    }
  }

  /** A value that is already masked is left exactly as it is. */
  lemma {:induction false} MaskedIsFixed(v: Val, keys: seq<string>, mask: string)
    requires Masked(v, keys, mask)
    ensures Redact(v, keys, mask) == v
    decreases v
  {
    if v.Obj? {
      var r := Redact(v, keys, mask);
      forall k | k in v.fields ensures r.fields[k] == v.fields[k] {
        if !Sensitive(k, keys) && v.fields[k].Obj? {
          MaskedIsFixed(v.fields[k], keys, mask);
        }
      }
      assert r.fields == v.fields;
    }
  }

  /** Redacting twice is redacting once. */
  lemma RedactIdempotent(v: Val, keys: seq<string>, mask: string)
    ensures Redact(Redact(v, keys, mask), keys, mask) == Redact(v, keys, mask)
  {
    RedactMasks(v, keys, mask);
    MaskedIsFixed(Redact(v, keys, mask), keys, mask);
  }

  /** The value reached from `v` by following the property names in `path`. */
  function At(v: Val, path: seq<string>): Option<Val>
    decreases |path|
  {
    if |path| == 0 then Some(v)
    else if v.Obj? && path[0] in v.fields then At(v.fields[path[0]], path[1..])
    else None
  }

  /**
   * Redaction commutes with following a path of non-sensitive names: what is
   * found at the path in the copy is the redacted copy of what was there. A
   * sensitive name at the end of such a path therefore holds the mask text,
   * however deep it sits.
   */
  lemma {:induction false} RedactAlongPath(v: Val, path: seq<string>, keys: seq<string>, mask: string)
    requires forall i :: 0 <= i < |path| ==> !Sensitive(path[i], keys)
    requires At(v, path).Some?
    ensures At(Redact(v, keys, mask), path) == Some(Redact(At(v, path).value, keys, mask))
    decreases |path|
  {
    if |path| > 0 {
      var w := v.fields[path[0]];
      if w.Obj? {
        RedactAlongPath(w, path[1..], keys, mask);
      } else {
        assert |path[1..]| == 0;
      }
    }
  }

  lemma DeepSecretMasked(v: Val, path: seq<string>, secret: string, keys: seq<string>, mask: string)
    requires forall i :: 0 <= i < |path| ==> !Sensitive(path[i], keys)
    requires Sensitive(secret, keys)
    requires At(v, path + [secret]).Some?
    ensures At(Redact(v, keys, mask), path + [secret]) == Some(Str(mask))
  {
    AtAppend(v, path, secret);
    RedactAlongPath(v, path, keys, mask);
    AtAppend(Redact(v, keys, mask), path, secret);
  }

  lemma {:induction false} AtAppend(v: Val, path: seq<string>, key: string)
    ensures At(v, path + [key]) ==
      (match At(v, path)
       case Some(w) => if w.Obj? && key in w.fields then Some(w.fields[key]) else None
       case None => None)
    decreases |path|
  {
    if |path| == 0 {
      assert path + [key] == [key];
      assert At(v, [key]) == (if v.Obj? && key in v.fields then At(v.fields[key], []) else None);
    } else {
      assert (path + [key])[1..] == path[1..] + [key];
      if v.Obj? && path[0] in v.fields {
        AtAppend(v.fields[path[0]], path[1..], key);
      }
    }
  }

  /** With the default lists, `Authorization` and `PassWord` are sensitive whatever their case, and `user` is not. */
  lemma DefaultKeysExample()
    ensures var keys := SensitiveKeys(Some(DefaultSensitiveHeaders), Some(DefaultSensitiveParams));
      && Sensitive("Authorization", keys)
      && Sensitive("PassWord", keys)
      && !Sensitive("user", keys)
  {
    var keys := SensitiveKeys(Some(DefaultSensitiveHeaders), Some(DefaultSensitiveParams));
    assert keys[0] == "authorization";
    assert keys[3] == "password";
    assert Lower("Authorization") == "authorization";
    assert Lower("PassWord") == "password";
    assert Lower("user") == "user";
  }
}
