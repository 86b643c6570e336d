/** `loadEnv` of the admin-creation script: reads `KEY=value` lines of a
    `.env` text into a key/value object, then insists on the two Supabase
    settings. Reading the file and exiting the process are left to the
    caller; the text is an input. */
module EnvFile {
  import opened Wrappers
  import opened Seqs
  import opened Text
  import opened Records

  /** One line's contribution: after trimming, a blank line or a `#`
      comment gives nothing; otherwise the text splits at `=`, the first
      piece is the key and the remaining pieces, rejoined with `=`, are the
      value. A line with no `=` or an empty first piece gives nothing. */
  function ParseLine(line: string): (r: Option<(string, string)>)
    ensures r.Some? ==> r.value.0 != "" && '=' in Trim(line)
  {
    var t := Trim(line);
    if ParseTrimmed(t).Some? then
      ParseTrimmedEntry(t);
      TrimIdempotent(line);
      KeyNotEmpty(t, FirstPos(t, '='));
      ParseTrimmed(t)
    else None
  }

  /** The rules applied to the trimmed line `t`. */
  function ParseTrimmed(t: string): Option<(string, string)>
  {
    if t == "" || StartsWith(t, "#") then None
    else
      var parts := Split(t, '=');
      var key := parts[0];
      if key != "" && |parts| > 1 then Some((Trim(key), Trim(Join(parts[1..], "="))))
      else None
  }

  /** Rejoining the pieces after the first one gives back the text after the
      first separator. */
  lemma SplitRest(s: string, c: char, i: nat)
    requires i < |s| && s[i] == c && c !in s[..i]
    ensures Split(s, c)[0] == s[..i]
    ensures |Split(s, c)| > 1 && Join(Split(s, c)[1..], [c]) == s[i + 1..]
  {
  }

  /** An entry exists exactly when the trimmed line is a non-comment line
      holding an `=` that is not its first character. */
  lemma ParseTrimmedDefined(t: string)
    ensures ParseTrimmed(t).Some? <==>
              t != "" && t[0] != '#' && '=' in t && FirstPos(t, '=') > 0
  {
    if t != "" {
      assert StartsWith(t, "#") <==> t[0] == '#' by {
        assert StartsWith(t, "#") <==> t[..1] == "#";
        assert t[..1] == [t[0]];
      }
      if !StartsWith(t, "#") {
        if '=' in t {
          SplitRest(t, '=', FirstPos(t, '='));
        } else {
          OccAbsent(t, '=');
        }
      }
    }
  }

  /** The key is the trimmed text before the first `=` and the value the
      trimmed text after it, later `=` kept. */
  lemma ParseTrimmedEntry(t: string)
    requires ParseTrimmed(t).Some?
    ensures '=' in t
    ensures var i := FirstPos(t, '=');
            ParseTrimmed(t).value == (Trim(t[..i]), Trim(t[i + 1..]))
  {
    ParseTrimmedDefined(t);
    SplitRest(t, '=', FirstPos(t, '='));
    assert "=" == ['='];
  }

  /** The line rules stated on the trimmed line: an entry exists exactly for
      a non-comment line with an `=` after its first character; its key is
      the trimmed text before the first `=` and is never empty, and its
      value is the trimmed text after that `=`. */
  lemma ParseLineSpec(line: string)
    ensures var t := Trim(line);
            ParseLine(line).Some? <==>
              t != "" && t[0] != '#' && '=' in t && FirstPos(t, '=') > 0
    ensures var t := Trim(line);
            ParseLine(line).Some? ==>
              '=' in t
              && ParseLine(line).value == (Trim(t[..FirstPos(t, '=')]), Trim(t[FirstPos(t, '=') + 1..]))
              && ParseLine(line).value.0 != ""
  {
    var t := Trim(line);
    ParseTrimmedDefined(t);
    if ParseTrimmed(t).Some? {
      ParseTrimmedEntry(t);
      TrimIdempotent(line);
      KeyNotEmpty(t, FirstPos(t, '='));
    }
  }

  /** A carriage return left at the end of a line by a Windows line break
      changes nothing. */
  lemma CarriageReturnIgnored(line: string)
    ensures ParseLine(line + "\r") == ParseLine(line)
  {
    assert IsWhitespace('\r');
    TrimAppendWhitespace(line, '\r');
    assert "\r" == ['\r'];
  }

  /** `KEY=` defines the key with the empty value. */
  lemma ParseEmptyValue(key: string)
    requires key != "" && key == Trim(key) && key[0] != '#' && '=' !in key
    ensures ParseLine(key + "=") == Some((key, ""))
  {
    var t := key + "=";
    KeyLineShape(key);
    ParseTrimmedDefined(t);
    ParseTrimmedEntry(t);
    TrimIdempotent(key);
    assert Trim("") == "";
  }

  lemma KeyLineShape(key: string)
    requires key != "" && key == Trim(key) && '=' !in key
    ensures var t := key + "=";
            Trim(t) == t && '=' in t && FirstPos(t, '=') == |key|
            && t[0] == key[0] && t[..|key|] == key && t[|key| + 1..] == ""
  {
    var t := key + "=";
    assert t[0] == key[0] && t[|t| - 1] == '=';
    TrimUnpadded(t);
    assert t[|key|] == '=';
    assert t[..|key|] == key;
  }

  /** The key starts at the first, non-space, character of the line, so it
      survives trimming. */
  lemma KeyNotEmpty(t: string, i: nat)
    requires t == Trim(t) && 0 < i <= |t|
    ensures Trim(t[..i]) != ""
  {
    TrimIdempotent(t);
    var k := t[..i];
    assert k[0] == t[0];
    assert !AllWhitespace(k) by {
      assert !IsWhitespace(k[0]);
    }
    TrimEmpty(k);
  }

  /** `env[key] = value` on the plain object `env`: the key `__proto__`
      reaches the prototype setter, which ignores a string, so no setting is
      stored for it. */
  function Store(env: map<string, string>, key: string, value: string): (r: map<string, string>)
    ensures key == ProtoKey ==> r == env
    ensures key != ProtoKey ==> r == env[key := value]
  {
    if key == ProtoKey then env else env[key := value]
  }

  /** One line's effect on the object of settings. */
  function AssignLine(env: map<string, string>, line: string): map<string, string>
  {
    match ParseLine(line)
    case Some(kv) => Store(env, kv.0, kv.1)
    case None => env
  }

  /** The object of settings, as `env[key] = value` assignments in line order:
      a later line with the same key overwrites the earlier value. */
  function Assign(env: map<string, string>, lines: seq<string>): map<string, string>
    decreases |lines|
  {
    if |lines| == 0 then env
    else Assign(AssignLine(env, lines[0]), lines[1..])
  }

  /** `loadEnv(content)`: never holds a `__proto__` setting. */
  function LoadEnv(content: string): (env: map<string, string>)
    ensures ProtoKey !in env
  {
    AssignLastWins(map[], Split(content, '\n'), ProtoKey);
    Assign(map[], Split(content, '\n'))
  }

  /** The last line defining `k`, if any. */
  function LastBinding(lines: seq<string>, k: string): Option<string>
  {
    if |lines| == 0 then None
    else
      var rest := LastBinding(lines[1..], k);
      if rest.Some? then rest
      else match ParseLine(lines[0])
           case Some(kv) => if kv.0 == k then Some(kv.1) else None
           case None => None
  }

  /** Every key other than `__proto__` holds the value of the last line that
      defines it; a key defined by no line, and `__proto__` whatever the
      lines say, keeps its earlier value. */
  lemma {:induction false} AssignLastWins(env: map<string, string>, lines: seq<string>, k: string)
    ensures k != ProtoKey && LastBinding(lines, k).Some? ==>
              k in Assign(env, lines) && Assign(env, lines)[k] == LastBinding(lines, k).value
    ensures k == ProtoKey || LastBinding(lines, k).None? ==>
              (k in Assign(env, lines) <==> k in env)
              && (k in env ==> Assign(env, lines)[k] == env[k])
    decreases |lines|
  {
    if |lines| > 0 {
      AssignLastWins(AssignLine(env, lines[0]), lines[1..], k);
    }
  }

  /** The loaded settings are exactly the keys other than `__proto__` that
      some line defines, each with the value of its last definition. */
  lemma LoadEnvLastWins(content: string, k: string)
    ensures var b := LastBinding(Split(content, '\n'), k);
            (k in LoadEnv(content) <==> k != ProtoKey && b.Some?)
            && (k in LoadEnv(content) ==> LoadEnv(content)[k] == b.value)
  {
    AssignLastWins(map[], Split(content, '\n'), k);
  }

  const UrlKey := "VITE_SUPABASE_URL"
  const PublishableKeyKey := "VITE_SUPABASE_PUBLISHABLE_KEY"

  /** The script's required-variable check: it goes on with the URL and the
      publishable key only when both are present and non-empty, and aborts
      otherwise. */
  function RequireSupabase(env: map<string, string>): (r: Result<(string, string), string>)
    ensures r.Success? <==>
              (UrlKey in env && env[UrlKey] != "" && PublishableKeyKey in env && env[PublishableKeyKey] != "")
    ensures r.Success? ==> r.value == (env[UrlKey], env[PublishableKeyKey])
  {
    var url := if UrlKey in env then env[UrlKey] else "";
    var key := if PublishableKeyKey in env then env[PublishableKeyKey] else "";
    if url == "" || key == "" then Failure("Missing Supabase environment variables in .env file")
    else Success((url, key))
  }

  /** `KEY=` defines `KEY` as the empty string, which the check rejects. */
  lemma EmptyValueFails(content: string)
    requires LastBinding(Split(content, '\n'), UrlKey) == Some("")
    ensures RequireSupabase(LoadEnv(content)).Failure?
  {
    LoadEnvLastWins(content, UrlKey);
  }
}
