/**
 * `BaseBot.resolve_webhook` and `BaseBot.to_config` (bots/base.py): the webhook URL of a bot is looked up
 * under each candidate key in turn, in the Streamlit secrets first and then in the environment.
 */
module Webhook {
  import opened Outcomes

  /** The class attributes of a bot that these two methods read. */
  datatype Bot = Bot(id: string, name: string, description: string, emoji: string, color: string,
                     secretsKey: Option<string>)

  /** The dictionary `to_config` returns. */
  datatype Config = Config(name: string, description: string, emoji: string, color: string, webhook: Option<string>)

  /** `str.upper()` on one ASCII character. */
  function UpperChar(c: char): char {
    if 'a' <= c <= 'z' then (c as int - 'a' as int + 'A' as int) as char else c
  }

  function Upper(s: string): (r: string)
    ensures |r| == |s| && forall i :: 0 <= i < |s| ==> r[i] == UpperChar(s[i])
  {
    if s == [] then [] else [UpperChar(s[0])] + Upper(s[1..])
  }

  /** A Python string is truthy when it is not empty. */
  predicate Truthy(s: string) { |s| > 0 }

  /** `if self.secrets_key:` */
  predicate HasSecretsKey(bot: Bot) { bot.secretsKey.Some? && Truthy(bot.secretsKey.value) }

  function IdKey(bot: Bot): string { "WEBHOOK_URL_" + Upper(bot.id) }

  const SharedKey := "WEBHOOK_URL"

  /** The keys in the order they are tried. */
  function CandidateKeys(bot: Bot): (keys: seq<string>)
    ensures |keys| == if HasSecretsKey(bot) then 3 else 2
    ensures HasSecretsKey(bot) ==> keys[0] == bot.secretsKey.value
    ensures keys[|keys| - 2] == IdKey(bot) && keys[|keys| - 1] == SharedKey
  {
    (if HasSecretsKey(bot) then [bot.secretsKey.value] else []) + [IdKey(bot), SharedKey]
  }

  /**
   * `st.secrets[key]` read under `try`: None when Streamlit is missing (`secrets` is None) or the key is
   * not there, both of which the source treats alike.
   */
  function Secret(secrets: Option<map<string, string>>, key: string): Option<string> {
    if secrets.Some? && key in secrets.value then Some(secrets.value[key]) else None
  }

  /** `os.environ.get(key)` */
  function EnvValue(env: map<string, string>, key: string): Option<string> {
    if key in env then Some(env[key]) else None
  }

  predicate TruthyOpt(v: Option<string>) { v.Some? && Truthy(v.value) }

  /** Some value under `key` is truthy, in either source. */
  predicate Found(secrets: Option<map<string, string>>, env: map<string, string>, key: string) {
    TruthyOpt(Secret(secrets, key)) || TruthyOpt(EnvValue(env, key))
  }

  /** The value for one key: the secret when it is truthy, else the environment value when it is truthy. */
  function ValueFor(secrets: Option<map<string, string>>, env: map<string, string>, key: string): (r: Option<string>)
    ensures r.Some? <==> Found(secrets, env, key)
    ensures r.Some? ==> Truthy(r.value)
  {
    if TruthyOpt(Secret(secrets, key)) then Secret(secrets, key)
    else if TruthyOpt(EnvValue(env, key)) then EnvValue(env, key)
    else None
  }

  /** The loop over the keys: the value for the first key that has one, or None. */
  function Lookup(secrets: Option<map<string, string>>, env: map<string, string>, keys: seq<string>): (r: Option<string>)
    ensures r.None? <==> forall i :: 0 <= i < |keys| ==> !Found(secrets, env, keys[i])
    ensures r.Some? ==> exists i :: 0 <= i < |keys| && r == ValueFor(secrets, env, keys[i]) &&
                                   (forall j :: 0 <= j < i ==> !Found(secrets, env, keys[j]))
    decreases |keys|
  {
    if keys == [] then None
    else if Found(secrets, env, keys[0]) then ValueFor(secrets, env, keys[0])
    else
      var r := Lookup(secrets, env, keys[1..]);
      assert forall i :: 1 <= i < |keys| ==> keys[i] == keys[1..][i - 1];
      if r.Some? then
        var i :| 0 <= i < |keys[1..]| && r == ValueFor(secrets, env, keys[1..][i]) &&
                 (forall j :: 0 <= j < i ==> !Found(secrets, env, keys[1..][j]));
        assert r == ValueFor(secrets, env, keys[i + 1]) && forall j :: 0 <= j < i + 1 ==> !Found(secrets, env, keys[j]);
        r
      else r
  }

  /** `resolve_webhook`: the keys are collected by appending, then tried in a loop that returns early. */
  method ResolveWebhook(bot: Bot, secrets: Option<map<string, string>>, env: map<string, string>)
    returns (r: Option<string>)
    ensures r == Lookup(secrets, env, CandidateKeys(bot))
  {
    var keys: seq<string> := [];
    if HasSecretsKey(bot) {
      keys := keys + [bot.secretsKey.value];
    }
    keys := keys + ["WEBHOOK_URL_" + Upper(bot.id)];
    keys := keys + ["WEBHOOK_URL"];
    assert keys == CandidateKeys(bot);
    var i := 0;
    while i < |keys|
      invariant 0 <= i <= |keys|
      invariant Lookup(secrets, env, keys) == Lookup(secrets, env, keys[i..])
    {
      var key := keys[i];
      LookupFrom(secrets, env, keys, i);
      if secrets.Some? {
        if key in secrets.value {
          var value := secrets.value[key];
          if Truthy(value) {
            return Some(value);
          }
        }
      }
      if key in env {
        var envValue := env[key];
        if Truthy(envValue) {
          return Some(envValue);
        }
      }
      i := i + 1;
    }
    r := None;
  }

  /** The lookup from the `i`-th key on: that key's value when it has one, else the lookup from the next key. */
  lemma LookupFrom(secrets: Option<map<string, string>>, env: map<string, string>, keys: seq<string>, i: nat)
    requires i < |keys|
    ensures Lookup(secrets, env, keys[i..]) ==
      if Found(secrets, env, keys[i]) then ValueFor(secrets, env, keys[i]) else Lookup(secrets, env, keys[i + 1..])
  {
    assert keys[i..][0] == keys[i] && keys[i..][1..] == keys[i + 1..];
  }

  /** `to_config`: the four display fields as they are, and the resolved webhook. */
  function ToConfig(bot: Bot, secrets: Option<map<string, string>>, env: map<string, string>): (c: Config)
    ensures c.name == bot.name && c.description == bot.description && c.emoji == bot.emoji && c.color == bot.color
    ensures c.webhook.None? <==> forall i :: 0 <= i < |CandidateKeys(bot)| ==> !Found(secrets, env, CandidateKeys(bot)[i])
    ensures c.webhook == Lookup(secrets, env, CandidateKeys(bot))
  {
    Config(bot.name, bot.description, bot.emoji, bot.color, Lookup(secrets, env, CandidateKeys(bot)))
  }

  /** The first key that has a truthy value decides, whatever later keys hold. */
  lemma {:induction false} FirstKeyWins(secrets: Option<map<string, string>>, env: map<string, string>,
                                        keys: seq<string>, i: nat)
    requires i < |keys| && Found(secrets, env, keys[i])
    requires forall j :: 0 <= j < i ==> !Found(secrets, env, keys[j])
    ensures Lookup(secrets, env, keys) == ValueFor(secrets, env, keys[i])
    decreases i
  {
    if i > 0 {
      assert forall j :: 0 <= j < i - 1 ==> keys[1..][j] == keys[j + 1];
      FirstKeyWins(secrets, env, keys[1..], i - 1);
    }
  }

  /** For one key, a truthy secret is returned and the environment is not consulted. */
  lemma SecretsBeforeEnv(secrets: map<string, string>, env: map<string, string>, key: string)
    requires key in secrets && Truthy(secrets[key])
    ensures ValueFor(Some(secrets), env, key) == Some(secrets[key])
  {
  }

  /** For one key, a missing or empty secret falls back to a truthy environment value. */
  lemma EnvFallback(secrets: Option<map<string, string>>, env: map<string, string>, key: string)
    requires !TruthyOpt(Secret(secrets, key)) && key in env && Truthy(env[key])
    ensures ValueFor(secrets, env, key) == Some(env[key])
  {
  }

  /** An earlier key found only in the environment beats a later key found in the secrets. */
  lemma KeyOrderBeatsSourceOrder(secrets: map<string, string>, env: map<string, string>, first: string, second: string)
    requires first !in secrets && first in env && Truthy(env[first])
    requires second in secrets && Truthy(secrets[second])
    ensures Lookup(Some(secrets), env, [first, second]) == Some(env[first])
  {
  }

  /** A key whose secret and environment value are both empty is skipped: the lookup goes on with the next key. */
  lemma FalsySkipped(secrets: map<string, string>, env: map<string, string>, keys: seq<string>)
    requires |keys| > 0 && keys[0] in secrets && secrets[keys[0]] == ""
    requires keys[0] !in env || env[keys[0]] == ""
    ensures Lookup(Some(secrets), env, keys) == Lookup(Some(secrets), env, keys[1..])
  {
  }

  /** Without Streamlit, only the environment is read: the lookup is as with no secrets at all. */
  lemma NoStreamlit(env: map<string, string>, keys: seq<string>)
    ensures Lookup(None, env, keys) == Lookup(Some(map[]), env, keys)
  {
    forall i | 0 <= i < |keys| ensures ValueFor(None, env, keys[i]) == ValueFor(Some(map[]), env, keys[i]) {
    }
    LookupSameValues(None, Some(map[]), env, keys);
  }

  /** Two secret stores that give every key the same value give the same lookup. */
  lemma {:induction false} LookupSameValues(a: Option<map<string, string>>, b: Option<map<string, string>>,
                                            env: map<string, string>, keys: seq<string>)
    requires forall i :: 0 <= i < |keys| ==> Secret(a, keys[i]) == Secret(b, keys[i])
    ensures Lookup(a, env, keys) == Lookup(b, env, keys)
    decreases |keys|
  {
    if keys != [] {
      assert forall i :: 0 <= i < |keys[1..]| ==> keys[1..][i] == keys[i + 1];
      LookupSameValues(a, b, env, keys[1..]);
    }
  }

  /** A truthy per-bot secret under the bot's own key is used before any per-id or shared value. */
  lemma SecretsKeyFirst(bot: Bot, secrets: map<string, string>, env: map<string, string>)
    requires HasSecretsKey(bot) && bot.secretsKey.value in secrets && Truthy(secrets[bot.secretsKey.value])
    ensures Lookup(Some(secrets), env, CandidateKeys(bot)) == Some(secrets[bot.secretsKey.value])
  {
  }

  /** With no truthy value under its own keys, every bot falls back to the shared key. */
  lemma SharedFallback(bot: Bot, secrets: Option<map<string, string>>, env: map<string, string>)
    requires !HasSecretsKey(bot) || !Found(secrets, env, bot.secretsKey.value)
    requires !Found(secrets, env, IdKey(bot))
    ensures Lookup(secrets, env, CandidateKeys(bot)) == ValueFor(secrets, env, SharedKey)
  {
    var keys := CandidateKeys(bot);
    if Found(secrets, env, SharedKey) {
      FirstKeyWins(secrets, env, keys, |keys| - 1);
    }
  }

  // ----- The order the docstring describes -----

  /**
   * The order the docstring of `resolve_webhook` lists: every candidate key in the Streamlit secrets
   * first, and the environment only as a fallback once no key has a truthy secret.
   */
  function LookupDocumented(secrets: Option<map<string, string>>, env: map<string, string>, keys: seq<string>): Option<string> {
    var fromSecrets := Lookup(secrets, map[], keys);
    if fromSecrets.Some? then fromSecrets else Lookup(None, env, keys)
  }

  /** In the documented order, the first key with a truthy secret wins over every environment value. */
  lemma SecretsFirstDocumented(secrets: map<string, string>, env: map<string, string>, keys: seq<string>, i: nat)
    requires i < |keys| && keys[i] in secrets && Truthy(secrets[keys[i]])
    requires forall j :: 0 <= j < i ==> !TruthyOpt(Secret(Some(secrets), keys[j]))
    ensures LookupDocumented(Some(secrets), env, keys) == Some(secrets[keys[i]])
  {
    FirstKeyWins(Some(secrets), map[], keys, i);
  }

  /** Without any truthy secret, the documented order and the loop as written give the same environment value. */
  lemma {:induction false} DocumentedAgreesWithoutSecrets(secrets: Option<map<string, string>>, env: map<string, string>,
                                                          keys: seq<string>)
    requires forall j :: 0 <= j < |keys| ==> !TruthyOpt(Secret(secrets, keys[j]))
    ensures LookupDocumented(secrets, env, keys) == Lookup(secrets, env, keys)
  {
    assert Lookup(secrets, map[], keys).None?;
    LookupNoSecrets(secrets, env, keys);
  }

  /** Secrets that are all missing or empty leave the lookup to the environment. */
  lemma {:induction false} LookupNoSecrets(secrets: Option<map<string, string>>, env: map<string, string>, keys: seq<string>)
    requires forall j :: 0 <= j < |keys| ==> !TruthyOpt(Secret(secrets, keys[j]))
    ensures Lookup(secrets, env, keys) == Lookup(None, env, keys)
    decreases |keys|
  {
    if keys != [] {
      assert forall j :: 0 <= j < |keys[1..]| ==> keys[1..][j] == keys[j + 1];
      LookupNoSecrets(secrets, env, keys[1..]);
    }
  }

  /** The loop as written and the documented order disagree: an earlier key in the environment beats a later secret. */
  lemma DocumentedOrderDiffers(secrets: map<string, string>, env: map<string, string>, first: string, second: string)
    requires first !in secrets && first in env && Truthy(env[first])
    requires second in secrets && Truthy(secrets[second])
    ensures Lookup(Some(secrets), env, [first, second]) == Some(env[first])
    ensures LookupDocumented(Some(secrets), env, [first, second]) == Some(secrets[second])
  {
    KeyOrderBeatsSourceOrder(secrets, env, first, second);
    SecretsFirstDocumented(secrets, env, [first, second], 1);
  }
}
