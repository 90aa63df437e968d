/** The rules of the Express server that edits the project's files: creating
    `config.json` from a form, rewriting the `LLM_PROVIDER` line of `.env`, replacing the
    `require` prompt of the config, choosing config and PDF files by name, and the two
    directory operations run before a pipeline run (emptying a directory, moving downloaded
    PDFs into `data`). Request bodies and file contents arrive already parsed. */
module Server {
  import opened Wrappers
  import opened Text
  import opened Seqs
  import opened Json

  /** The prompt a new config gets when the form supplies none (server.js:46). */
  const DefaultRequire: string := "请分析此文档，提取关键内容并进行总结。"

  const MissingFieldsMessage: string := "Missing required fields: targetUrl, startDate, or endDate"
  const ConfigNotFoundMessage: string := "Configuration file not found"
  const EnvNotFoundMessage: string := ".env file not found"
  const ConfigFileName: string := "config.json"

  /** An error reply: 400 and 404 carry the server's fixed message; 500 carries the text
      of a JavaScript exception, which is not modelled. */
  datatype HttpError = BadRequest(message: string) | NotFound(message: string) | InternalError {
    function Status(): nat {
      match this
      case BadRequest(_) => 400
      case NotFound(_) => 404
      case InternalError => 500
    }
  }

  /** `/api/config`: what `config.json` holds afterwards and what the client is told. */
  datatype Created = Created(configFile: Option<Json>, reply: Result<string, HttpError>)

  /** The config document built from the three required fields and the prompt. */
  function NewConfig(targetUrl: string, startDate: Json, endDate: Json, require: Option<Json>): (r: Json)
    ensures r.JObj? && r.fields.Keys == {"target_url", "startDate", "endDate", "require", "titles"}
    ensures "companyName" !in r.fields
    ensures r.fields["target_url"] == JStr(Strip(targetUrl, JsWhitespace))
    ensures r.fields["startDate"] == startDate && r.fields["endDate"] == endDate
    ensures r.fields["require"] == if Truthy(require) then require.value else JStr(DefaultRequire)
    ensures r.fields["titles"] == JArr([])
  {
    JObj(map[
      "target_url" := JStr(Strip(targetUrl, JsWhitespace)),
      "startDate" := startDate,
      "endDate" := endDate,
      "require" := if Truthy(require) then require.value else JStr(DefaultRequire),
      "titles" := JArr([])
    ])
  }

  /** The check of server.js:31-33: the three fields the form must fill are all truthy. */
  predicate HasRequiredFields(body: Json) {
    Truthy(Field(body, "targetUrl")) && Truthy(Field(body, "startDate")) && Truthy(Field(body, "endDate"))
  }

  /** POST /api/config (server.js:27-61). `existing` is the current `config.json`. The old
      file is deleted before `targetUrl.trim()` runs, so a truthy non-string `targetUrl`
      leaves no config at all. */
  function CreateConfig(body: Json, existing: Option<Json>): (r: Created)
    ensures r.reply == Failure(BadRequest(MissingFieldsMessage)) <==> !HasRequiredFields(body)
    ensures r.reply.Failure? && r.reply.error.BadRequest? ==> r.configFile == existing
    ensures r.reply.Failure? && r.reply.error.InternalError? ==> r.configFile.None?
    ensures r == Created(None, Failure(InternalError)) <==>
      HasRequiredFields(body) && !Field(body, "targetUrl").value.JStr?
    ensures r.reply.Success? <==> HasRequiredFields(body) && Field(body, "targetUrl").value.JStr?
    ensures r.reply.Success? ==> r.reply.value == ConfigFileName && r.configFile.Some? && r.configFile.value.JObj?
    ensures r.reply.Success? ==>
      var fields := r.configFile.value.fields;
      && fields.Keys == {"target_url", "startDate", "endDate", "require", "titles"}
      && "companyName" !in fields
      && fields["target_url"] == JStr(Strip(Field(body, "targetUrl").value.s, JsWhitespace))
      && fields["startDate"] == Field(body, "startDate").value
      && fields["endDate"] == Field(body, "endDate").value
      && fields["require"] == (if Truthy(Field(body, "require")) then Field(body, "require").value else JStr(DefaultRequire))
      && fields["titles"] == JArr([])
  {
    if !HasRequiredFields(body) then
      Created(existing, Failure(BadRequest(MissingFieldsMessage)))
    else if !Field(body, "targetUrl").value.JStr? then
      Created(None, Failure(InternalError))
    else
      var config := NewConfig(Field(body, "targetUrl").value.s, Field(body, "startDate").value,
        Field(body, "endDate").value, Field(body, "require"));
      Created(Some(config), Success(ConfigFileName))
  }

  /** The text the `.env` rewrite searches for. */
  const ProviderKey: string := "LLM_PROVIDER="

  /** The end of the line that starts at or before `from`: the first line terminator at or
      after `from`, or the end of the text. This is where the greedy dot-star of the
      pattern `LLM_PROVIDER=` followed by any run of non-terminators stops. */
  function LineEnd(s: string, from: nat): (j: nat)
    requires from <= |s|
    ensures from <= j <= |s|
    ensures forall k :: from <= k < j ==> s[k] !in JsLineTerminators
    ensures j < |s| ==> s[j] in JsLineTerminators
    decreases |s| - from
  {
    if from == |s| || s[from] in JsLineTerminators then from else LineEnd(s, from + 1)
  }

  /** How `String.prototype.replace` inserts a replacement string when the pattern has no
      capture groups: `$$` is a dollar sign, `$&` the matched text, `` $` `` the text
      before the match, `$'` the text after it; any other `$` stays as it is. A
      replacement without a dollar sign is inserted literally. */
  function ExpandReplacement(repl: string, matched: string, before: string, after: string): (r: string)
    ensures '$' !in repl ==> r == repl
    decreases |repl|
  {
    if repl == [] then []
    else if repl[0] == '$' && |repl| >= 2 && repl[1] in {'$', '&', '`', '\''} then
      var inserted := match repl[1]
        case '$' => "$"
        case '&' => matched
        case '`' => before
        case _ => after;
      inserted + ExpandReplacement(repl[2..], matched, before, after)
    else
      assert forall c :: c in repl[1..] ==> c in repl;
      [repl[0]] + ExpandReplacement(repl[1..], matched, before, after)
  }

  /** The four special patterns, and a dollar sign before any other character. */
  lemma ReplacementPatterns(matched: string, before: string, after: string)
    ensures ExpandReplacement("$$", matched, before, after) == "$"
    ensures ExpandReplacement("$&", matched, before, after) == matched
    ensures ExpandReplacement("$`", matched, before, after) == before
    ensures ExpandReplacement("$'", matched, before, after) == after
    ensures ExpandReplacement("$1", matched, before, after) == "$1"
    ensures ExpandReplacement("a$&b", matched, before, after) == "a" + matched + "b"
  {
    assert "$$"[2..] == [] && "$&"[2..] == [] && "$`"[2..] == [] && "$'"[2..] == [];
    assert "$1"[1..] == "1" && "1"[1..] == [];
    assert "a$&b"[1..] == "$&b" && "$&b"[2..] == "b" && "b"[1..] == [];
  }

  /** POST /api/update-env (server.js:97-127): the new `.env` text, given the current one
      (`None` when the file does not exist) and the provider as the template literal
      renders it. */
  function UpdateEnv(env: Option<string>, provider: string): (r: Result<string, HttpError>)
    ensures env.None? <==> r == Failure(NotFound(EnvNotFoundMessage))
    ensures env.Some? && !Contains(env.value, ProviderKey) ==>
      r == Success(env.value + "\n" + ProviderKey + provider)
    ensures env.Some? && Contains(env.value, ProviderKey) ==>
      var s := env.value;
      var i := IndexOf(s, ProviderKey).value;
      var j := LineEnd(s, i + |ProviderKey|);
      r == Success(s[..i] + ExpandReplacement(ProviderKey + provider, s[i..j], s[..i], s[j..]) + s[j..])
  {
    match env
    case None => Failure(NotFound(EnvNotFoundMessage))
    case Some(s) =>
      match IndexOf(s, ProviderKey)
      case None => Success(s + "\n" + ProviderKey + provider)
      case Some(i) =>
        var j := LineEnd(s, i + |ProviderKey|);
        Success(s[..i] + ExpandReplacement(ProviderKey + provider, s[i..j], s[..i], s[j..]) + s[j..])
  }

  /** The value of the first `LLM_PROVIDER=` line of a `.env` text: what follows the key
      up to the end of that line. */
  function FirstProviderSetting(s: string): Option<string>
  {
    match IndexOf(s, ProviderKey)
    case None => None
    case Some(i) => Some(s[i + |ProviderKey|..LineEnd(s, i + |ProviderKey|)])
  }

  /** A text that agrees with `s` up to the end of the first occurrence of the key in `s`
      has its first occurrence at the same place. */
  lemma SameFirstOccurrence(s: string, t: string, i: nat)
    requires IndexOf(s, ProviderKey) == Some(i)
    requires i + |ProviderKey| <= |t| && t[..i + |ProviderKey|] == s[..i + |ProviderKey|]
    ensures IndexOf(t, ProviderKey) == Some(i)
  {
    var k := |ProviderKey|;
    forall j | 0 <= j <= i ensures OccursAt(t, ProviderKey, j) == OccursAt(s, ProviderKey, j) {
      SliceOfPrefix(t, i + k, j, j + k);
      SliceOfPrefix(s, i + k, j, j + k);
    }
  }

  /** The key first occurs just after the appended line break when the text had none. */
  lemma AppendedKeyIsFirst(env: string, line: string)
    requires !Contains(env, ProviderKey) && ProviderKey <= line
    ensures IndexOf(env + "\n" + line, ProviderKey) == Some(|env| + 1)
  {
    var r := env + "\n" + line;
    var k := |ProviderKey|;
    assert r[|env| + 1..|env| + 1 + k] == line[..k];
    assert OccursAt(r, ProviderKey, |env| + 1);
    forall j | 0 <= j < |env| + 1 ensures !OccursAt(r, ProviderKey, j) {
      if j + k <= |env| {
        assert r[j..j + k] == env[j..j + k];
        assert !OccursAt(env, ProviderKey, j);
      } else {
        assert r[|env|] == '\n';
        assert r[j..j + k][|env| - j] != ProviderKey[|env| - j];
      }
    }
  }

  /** After the rewrite the first `LLM_PROVIDER=` line holds exactly the new provider, in
      both branches, provided the value has no `$` (which `replace` would expand) and no
      line break. */
  lemma UpdateEnvRoundTrip(env: string, provider: string)
    requires '$' !in provider && forall c :: c in provider ==> c !in JsLineTerminators
    ensures UpdateEnv(Some(env), provider).Success?
    ensures FirstProviderSetting(UpdateEnv(Some(env), provider).value) == Some(provider)
  {
    if Contains(env, ProviderKey) {
      ReplacedSettingReadsBack(env, provider);
    } else {
      AppendedSettingReadsBack(env, provider);
    }
  }

  lemma AppendedSettingReadsBack(env: string, provider: string)
    requires !Contains(env, ProviderKey)
    requires forall c :: c in provider ==> c !in JsLineTerminators
    ensures FirstProviderSetting(env + "\n" + ProviderKey + provider) == Some(provider)
  {
    var line := ProviderKey + provider;
    var r := env + "\n" + line;
    var from := |env| + 1 + |ProviderKey|;
    assert env + "\n" + ProviderKey + provider == r;
    AppendedKeyIsFirst(env, line);
    assert r[from..] == provider + [];
    LineEndAfterValue(r, from, provider, []);
  }

  lemma ReplacedSettingReadsBack(env: string, provider: string)
    requires Contains(env, ProviderKey)
    requires '$' !in provider && forall c :: c in provider ==> c !in JsLineTerminators
    ensures FirstProviderSetting(UpdateEnv(Some(env), provider).value) == Some(provider)
  {
    var k := |ProviderKey|;
    var i := IndexOf(env, ProviderKey).value;
    var j := LineEnd(env, i + k);
    LiteralReplacement(env, provider);
    ValueBeforeRest(env[..i], provider, env[j..], env);
  }

  /** Without a `$` in the provider, the rewrite puts the key and the provider in place of
      the old line's text. */
  lemma LiteralReplacement(env: string, provider: string)
    requires Contains(env, ProviderKey) && '$' !in provider
    ensures var i := IndexOf(env, ProviderKey).value;
      var j := LineEnd(env, i + |ProviderKey|);
      UpdateEnv(Some(env), provider) == Success(env[..i] + ProviderKey + provider + env[j..])
  {
    var line := ProviderKey + provider;
    var i := IndexOf(env, ProviderKey).value;
    var j := LineEnd(env, i + |ProviderKey|);
    var before, matched, after := env[..i], env[i..j], env[j..];
    KeyLineHasNoDollar(provider);
    assert ExpandReplacement(line, matched, before, after) == line;
    assert before + line + after == before + ProviderKey + provider + after;
  }

  lemma KeyLineHasNoDollar(provider: string)
    requires '$' !in provider
    ensures '$' !in ProviderKey + provider
  {
    var line := ProviderKey + provider;
    forall k | 0 <= k < |line| ensures line[k] != '$' {
      if k >= |ProviderKey| {
        assert line[k] == provider[k - |ProviderKey|];
      }
    }
  }

  /** The key inserted after a prefix that agrees with `env` up to its first key occurrence
      is read back with the provider as its value. */
  lemma ValueBeforeRest(before: string, provider: string, rest: string, env: string)
    requires IndexOf(env, ProviderKey) == Some(|before|) && env[..|before|] == before
    requires forall c :: c in provider ==> c !in JsLineTerminators
    requires rest != [] ==> rest[0] in JsLineTerminators
    ensures FirstProviderSetting(before + ProviderKey + provider + rest) == Some(provider)
  {
    var k := |ProviderKey|;
    var i := |before|;
    var r := before + ProviderKey + provider + rest;
    assert env[i..i + k] == ProviderKey;
    assert r[..i + k] == env[..i + k];
    SameFirstOccurrence(env, r, i);
    assert r[i + k..] == provider + rest;
    LineEndAfterValue(r, i + k, provider, rest);
  }

  /** The line end after a value without line breaks is the end of that value. */
  lemma LineEndAfterValue(r: string, from: nat, provider: string, rest: string)
    requires from + |provider| + |rest| == |r| && r[from..] == provider + rest
    requires forall c :: c in provider ==> c !in JsLineTerminators
    requires rest != [] ==> rest[0] in JsLineTerminators
    ensures LineEnd(r, from) == from + |provider|
    ensures r[from..LineEnd(r, from)] == provider
  {
    forall k | from <= k < from + |provider| ensures r[k] !in JsLineTerminators {
      assert r[k] == provider[k - from];
      assert provider[k - from] in provider;
    }
    assert from + |provider| < |r| ==> r[from + |provider|] in JsLineTerminators by {
      if from + |provider| < |r| {
        assert r[from + |provider|] == rest[0];
      }
    }
    assert r[from..from + |provider|] == provider;
  }

  /** POST /api/update-config (server.js:130-153): the config written back, given the
      stored `config.json` and the request's `require` (`None` is `undefined`, which
      `JSON.stringify` then leaves out). */
  function UpdateConfig(stored: StoredJson, require: Option<Json>): (r: Result<Json, HttpError>)
    ensures stored.Missing? <==> r == Failure(NotFound(ConfigNotFoundMessage))
    ensures stored.Parsed? && stored.doc.JObj? ==> r.Success? && r.value.JObj?
    ensures stored.Parsed? && stored.doc.JObj? ==>
      var before, after := stored.doc.fields, r.value.fields;
      && (forall k :: k != "require" ==> (k in after <==> k in before))
      && (forall k :: k in before && k != "require" ==> after[k] == before[k])
      && ("require" in after <==> require.Some?)
      && (require.Some? ==> after["require"] == require.value)
    ensures stored.Parsed? && !stored.doc.JObj? && !stored.doc.JNull? ==> r == Success(stored.doc)
    ensures stored.Unparsable? || stored == Parsed(JNull) ==> r == Failure(InternalError)
  {
    match stored
    case Missing => Failure(NotFound(ConfigNotFoundMessage))
    case Unparsable => Failure(InternalError)
    case Parsed(JNull) => Failure(InternalError)
    case Parsed(JObj(fields)) =>
      Success(JObj(if require.Some? then fields["require" := require.value] else fields - {"require"}))
    case Parsed(doc) => Success(doc)
  }

  predicate IsConfigName(name: string) {
    "config_" <= name && EndsWith(name, ".json")
  }

  /** GET /api/configs (server.js:66-67): the directory entries that are config files, in
      listing order. */
  function ConfigNames(listing: seq<string>): (r: seq<string>)
    ensures forall n :: n in r <==> n in listing && "config_" <= n && EndsWith(n, ".json")
  {
    Filter(listing, IsConfigName)
  }

  /** The listing order is kept: the config names of two listings put together are those
      of the first followed by those of the second. */
  lemma ConfigNamesKeepOrder(a: seq<string>, b: seq<string>)
    ensures ConfigNames(a + b) == ConfigNames(a) + ConfigNames(b)
  {
    FilterAppend(a, b, IsConfigName);
  }

  /** The PDF test of server.js:222-223 and 312-314 (case-sensitive). */
  predicate IsPdfName(name: string) {
    EndsWith(name, ".pdf") || EndsWith(name, ".PDF")
  }

  /** A name passes the PDF test exactly when it is some stem followed by `.pdf` or `.PDF`;
      mixed-case extensions do not. */
  lemma PdfNameShape(name: string)
    ensures IsPdfName(name) <==> exists stem :: name == stem + ".pdf" || name == stem + ".PDF"
    ensures !IsPdfName("report.Pdf") && IsPdfName("report.PDF")
  {
    if IsPdfName(name) {
      var stem := name[..|name| - 4];
      assert name == stem + ".pdf" || name == stem + ".PDF";
    }
    if exists stem :: name == stem + ".pdf" || name == stem + ".PDF" {
      var stem :| name == stem + ".pdf" || name == stem + ".PDF";
      assert name[|name| - 4..] == ".pdf" || name[|name| - 4..] == ".PDF";
    }
    assert "report.Pdf"[6..] == ".Pdf";
  }

  /** The PDFs of a directory listing, in listing order (server.js:222-223). */
  function PdfNames(listing: seq<string>): (r: seq<string>)
    ensures forall n :: n in r <==> n in listing && IsPdfName(n)
  {
    Filter(listing, IsPdfName)
  }

  /** A directory entry: a file with its bytes, or a sub-directory. */
  datatype Entry = File(bytes: seq<bv8>) | Folder

  /** One directory of the working tree (`downloads` or `data`), present or not. */
  class Directory {
    var present: bool
    var entries: map<string, Entry>

    ghost predicate Valid()
      reads this
    {
      !present ==> entries == map[]
    }

    constructor (present: bool, entries: map<string, Entry>)
      requires present || entries == map[]
      ensures Valid() && this.present == present && this.entries == entries
    {
      this.present := present;
      this.entries := entries;
    }

    /** `if (!fs.existsSync(dir)) fs.mkdirSync(dir)` (server.js:17-24, 307-309). */
    method Ensure()
      requires Valid()
      modifies this
      ensures Valid() && present && entries == old(entries)
    {
      if !present {
        present := true;
        entries := map[];
      }
    }

    /** `clearDirectory` (server.js:156-170): unlink every entry, in listing order. Unlinking
        a sub-directory throws, which stops the loop and is rethrown (`ok` false): files met
        before it are gone, it and everything after it remain. The listing order is not
        modelled, so on failure the model only says which entries may have gone. */
    method Clear() returns (ok: bool)
      requires Valid()
      modifies this
      ensures Valid() && present == old(present)
      ensures ok <==> forall n :: n in old(entries) ==> old(entries)[n].File?
      ensures ok ==> entries == map[]
      ensures !ok ==> entries.Keys <= old(entries).Keys
      ensures !ok ==> forall n :: n in entries ==> entries[n] == old(entries)[n]
      ensures !ok ==> forall n :: n in old(entries) && old(entries)[n].Folder? ==> n in entries
    {
      if !present {
        return true;
      }
      var todo := entries.Keys;
      while todo != {}
        invariant present && entries.Keys == todo
        invariant forall n :: n in entries ==> entries[n] == old(entries)[n]
        invariant forall n :: n in old(entries) && old(entries)[n].Folder? ==> n in todo
        decreases todo
      {
        var name :| name in todo;
        if entries[name].Folder? {
          return false;
        }
        entries := entries - {name};
        todo := todo - {name};
      }
      return true;
    }
  }

  /** The PDFs `movePdfFiles` moves: every PDF of `downloads` with no entry of the same
      name in `data`, except those whose rename fails. */
  function MovedNames(downloads: map<string, Entry>, data: map<string, Entry>, failing: set<string>): set<string>
  {
    set n | n in downloads && IsPdfName(n) && n !in data && n !in failing
  }

  /** `target` with the entries of `source` named in `names` added. */
  ghost function Placed(target: map<string, Entry>, source: map<string, Entry>, names: set<string>): map<string, Entry>
    requires names <= source.Keys
  {
    target + map n | n in names :: source[n]
  }

  /** One rename: the name joins the moved ones. */
  lemma MoveStep(target: map<string, Entry>, source: map<string, Entry>, names: set<string>, x: string)
    requires names <= source.Keys && x in source && x !in names
    ensures |names + {x}| == |names| + 1
    ensures (source - names) - {x} == source - (names + {x})
    ensures Placed(target, source, names + {x}) == Placed(target, source, names)[x := source[x]]
  {
  }

  /** `movePdfFiles` (server.js:299-343). Nothing happens when `downloads` is absent;
      otherwise `data` is created if needed and each PDF of `downloads` is renamed into it
      unless `data` already has that name (skipped, left in `downloads`) or the rename
      throws (`failing`: logged, left in place). `movedCount` is the number of renames
      done, which the source logs. */
  method MovePdfFiles(downloads: Directory, data: Directory, failing: set<string>) returns (movedCount: nat)
    requires downloads != data && downloads.Valid() && data.Valid()
    modifies downloads, data
    ensures downloads.Valid() && data.Valid()
    ensures !old(downloads.present) ==>
      movedCount == 0 && data.present == old(data.present) && data.entries == old(data.entries)
      && downloads.present == old(downloads.present) && downloads.entries == old(downloads.entries)
    ensures old(downloads.present) ==>
      var moved := MovedNames(old(downloads.entries), old(data.entries), failing);
      && data.present && downloads.present
      && movedCount == |moved|
      && downloads.entries == old(downloads.entries) - moved
      && data.entries == Placed(old(data.entries), old(downloads.entries), moved)
  {
    if !downloads.present {
      return 0;
    }
    data.Ensure();
    var from, into;
    from, into, movedCount := MoveEach(downloads.entries, data.entries, failing);
    downloads.entries := from;
    data.entries := into;
  }

  /** The rename loop of `movePdfFiles` (server.js:318-336) over the two listings: each
      PDF of `source` not already in `target` and whose rename does not throw leaves
      `source` for `target`; `count` is the number of renames done. */
  method MoveEach(source: map<string, Entry>, target: map<string, Entry>, failing: set<string>)
    returns (from: map<string, Entry>, into: map<string, Entry>, count: nat)
    ensures var moved := MovedNames(source, target, failing);
      && count == |moved|
      && from == source - moved
      && into == Placed(target, source, moved)
  {
    from, into := source, target;
    ghost var moved := MovedNames(source, target, failing);
    var todo := set n | n in source && IsPdfName(n);
    ghost var done: set<string> := {};
    count := 0;
    while todo != {}
      invariant todo <= source.Keys && done <= moved
      invariant forall n :: n in moved ==> n in done || n in todo
      invariant done !! todo
      invariant count == |done|
      invariant from == source - done
      invariant into == Placed(target, source, done)
      decreases todo
    {
      var name :| name in todo;
      todo := todo - {name};
      if name in into {
        // the destination exists: skipped
      } else if name in failing {
        // the rename throws: logged and skipped
      } else {
        MoveStep(target, source, done, name);
        into := into[name := from[name]];
        from := from - {name};
        done := done + {name};
        count := count + 1;
      }
    }
    assert done == moved;
  }
}
