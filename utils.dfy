/** common/utils.py: the random unique-code generator (used for order references)
    and the attribute-copying `update` of serializers. */
module Utils {
  import opened Wrappers

  /** The symbols a code is drawn from: the capital letters and the digits 1 to 9, no 0. */
  const AllowedChars: string := "ABCDEFGHIJKLMNOPQRSTUVWXYZ123456789"

  /** Every code has this many symbols. */
  const CodeLength: nat := 12

  /** The outcome of one `secrets.choice(allowed_chars)`: a position in the alphabet. */
  type Pick = i: nat | i < |AllowedChars|

  /** A string the generator can return. */
  predicate IsCode(s: string)
  {
    |s| == CodeLength && forall i :: 0 <= i < |s| ==> s[i] in AllowedChars
  }

  /** The string spelled by a run of choices: `"".join(...)` over the chosen symbols. */
  function Spell(picks: seq<Pick>): string
  {
    seq(|picks|, i requires 0 <= i < |picks| => AllowedChars[picks[i]])
  }

  /** Where a symbol sits in the alphabet, or -1 for a symbol outside it. */
  function IndexOf(c: char): int
  {
    if 'A' <= c <= 'Z' then c as int - 'A' as int
    else if '1' <= c <= '9' then c as int - '1' as int + 26
    else -1
  }

  /** The choices that spell a string, read back symbol by symbol. */
  function Unspell(s: string): seq<int>
  {
    seq(|s|, i requires 0 <= i < |s| => IndexOf(s[i]))
  }

  /** The alphabet has no repeated symbol: each position is read back as itself. */
  lemma AlphabetIndex(i: nat)
    requires i < |AllowedChars|
    ensures IndexOf(AllowedChars[i]) == i
  {
  }

  /** Twelve choices always spell a code, and the choices are recoverable from it:
      distinct runs of choices give distinct codes. */
  lemma SpellIsCode(picks: seq<Pick>)
    requires |picks| == CodeLength
    ensures IsCode(Spell(picks))
    ensures Unspell(Spell(picks)) == picks
  {
    forall i | 0 <= i < |picks| ensures Unspell(Spell(picks))[i] == picks[i] {
      AlphabetIndex(picks[i]);
    }
  }

  /** Every code can be generated: it is spelled by the choices read back from it. */
  lemma EveryCodeIsReachable(code: string)
    requires IsCode(code)
    ensures forall i :: 0 <= i < |code| ==> 0 <= Unspell(code)[i] < |AllowedChars|
    ensures Spell(Unspell(code)) == code
  {
    forall i | 0 <= i < |code| ensures 0 <= IndexOf(code[i]) < |AllowedChars| && AllowedChars[IndexOf(code[i])] == code[i] {
      var k :| 0 <= k < |AllowedChars| && AllowedChars[k] == code[i];
      AlphabetIndex(k);
    }
  }

  /** A code never holds the digit 0 or a lower-case letter. */
  lemma CodeAvoidsAmbiguousSymbols(code: string)
    requires IsCode(code)
    ensures '0' !in code
    ensures forall c :: c in code ==> !('a' <= c <= 'z')
  {
  }

  /** The code of attempt `k` of a run of choices: symbols 12k to 12k+11. */
  function Attempt(picks: seq<Pick>, k: nat): string
    requires (k + 1) * CodeLength <= |picks|
  {
    Spell(picks[k * CodeLength..(k + 1) * CodeLength])
  }

  /** The number of whole attempts a run of choices pays for. */
  function Attempts(picks: seq<Pick>): nat
  {
    |picks| / CodeLength
  }

  /** What `generate_unique_code` returns when its choices come from `picks`: the first attempt
      whose code no stored row holds, or None when the choices run out first. */
  function FirstUnique(existing: set<string>, picks: seq<Pick>): Option<string>
    decreases |picks|
  {
    if |picks| < CodeLength then None
    else
      var code := Spell(picks[..CodeLength]);
      if code !in existing then Some(code) else FirstUnique(existing, picks[CodeLength..])
  }

  /** A returned code has twelve symbols of the alphabet and no stored row holds it. */
  lemma {:induction false} FirstUniqueIsFresh(existing: set<string>, picks: seq<Pick>)
    ensures var r := FirstUnique(existing, picks);
      r.Some? ==> IsCode(r.value) && r.value !in existing
    decreases |picks|
  {
    if |picks| >= CodeLength {
      SpellIsCode(picks[..CodeLength]);
      FirstUniqueIsFresh(existing, picks[CodeLength..]);
    }
  }

  /** The generator fails only when every attempt it could pay for collides, and when it
      succeeds it returns the first attempt that does not. */
  lemma {:induction false} FirstUniqueFailsIffAllCollide(existing: set<string>, picks: seq<Pick>)
    ensures FirstUnique(existing, picks).None? <==>
      forall k :: 0 <= k < Attempts(picks) ==> Attempt(picks, k) in existing
    ensures FirstUnique(existing, picks).Some? ==>
      exists k :: 0 <= k < Attempts(picks) && FirstUnique(existing, picks).value == Attempt(picks, k)
        && forall j :: 0 <= j < k ==> Attempt(picks, j) in existing
    decreases |picks|
  {
    if |picks| >= CodeLength {
      var rest := picks[CodeLength..];
      FirstUniqueFailsIffAllCollide(existing, rest);
      assert Attempts(picks) == Attempts(rest) + 1;
      assert Attempt(picks, 0) == Spell(picks[..CodeLength]);
      forall k | 0 <= k < Attempts(rest) ensures Attempt(picks, k + 1) == Attempt(rest, k) {
        assert picks[(k + 1) * CodeLength..(k + 2) * CodeLength] == rest[k * CodeLength..(k + 1) * CodeLength];
      }
      if Spell(picks[..CodeLength]) in existing {
        if FirstUnique(existing, rest).Some? {
          var k :| 0 <= k < Attempts(rest) && FirstUnique(existing, rest).value == Attempt(rest, k)
            && forall j :: 0 <= j < k ==> Attempt(rest, j) in existing;
          assert Attempt(picks, k + 1) == Attempt(rest, k);
          forall j | 0 <= j < k + 1 ensures Attempt(picks, j) in existing {
            if j > 0 {
              assert Attempt(picks, j) == Attempt(rest, j - 1);
            }
          }
        } else {
          forall k | 0 <= k < Attempts(picks) ensures Attempt(picks, k) in existing {
            if k > 0 {
              assert Attempt(picks, k) == Attempt(rest, k - 1);
            }
          }
        }
      }
    }
  }

  /** `generate_unique_code`: draw twelve symbols, and retry with fresh choices while some stored
      row already holds that value in the field; `existing` is the set of values the field holds.
      The source recurses without bound; here the run of choices pays for the attempts. */
  method GenerateUniqueCode(existing: set<string>, picks: seq<Pick>) returns (code: Option<string>)
    ensures code == FirstUnique(existing, picks)
    ensures code.Some? ==> IsCode(code.value) && code.value !in existing
  {
    FirstUniqueIsFresh(existing, picks);
    var pos := 0;
    while pos + CodeLength <= |picks|
      invariant pos <= |picks|
      invariant FirstUnique(existing, picks[pos..]) == FirstUnique(existing, picks)
    {
      var candidate := Spell(picks[pos..pos + CodeLength]);
      assert picks[pos..][..CodeLength] == picks[pos..pos + CodeLength];
      if candidate !in existing {
        return Some(candidate);
      }
      assert picks[pos..][CodeLength..] == picks[pos + CodeLength..];
      pos := pos + CodeLength;
    }
    code := None;
  }

  /** A model object: its attributes as `setattr` sees them, and the values its last `save()` stored.
      `update` sets attributes by the names in `validated_data`, so the object is a map from
      attribute names here rather than the typed fields of `Models.Instance`. */
  class ModelObject<V> {
    var attrs: map<string, V>
    var stored: map<string, V>

    constructor (attrs: map<string, V>, stored: map<string, V>)
      ensures this.attrs == attrs && this.stored == stored
    {
      this.attrs := attrs;
      this.stored := stored;
    }

    /** `save()`: every attribute is written to the row. */
    method Save()
      modifies this
      ensures attrs == old(attrs) && stored == attrs
    {
      stored := attrs;
    }
  }

  /** `UpdateMixin.update`: `setattr` each validated key to its value, save, and return the same
      object. Attributes not named in `validatedData` keep their values. */
  method Update<V>(instance: ModelObject<V>, validatedData: map<string, V>) returns (r: ModelObject<V>)
    modifies instance
    ensures r == instance
    ensures instance.attrs == old(instance.attrs) + validatedData
    ensures forall k :: k in validatedData ==> k in instance.attrs && instance.attrs[k] == validatedData[k]
    ensures forall k :: k in old(instance.attrs) && k !in validatedData ==>
      k in instance.attrs && instance.attrs[k] == old(instance.attrs)[k]
    ensures instance.stored == instance.attrs
  {
    var pending := validatedData.Keys;
    while pending != {}
      invariant pending <= validatedData.Keys
      invariant instance.attrs == old(instance.attrs) + (validatedData - pending)
      decreases pending
    {
      var k :| k in pending;
      instance.attrs := instance.attrs[k := validatedData[k]];
      pending := pending - {k};
    }
    assert validatedData - {} == validatedData;
    instance.Save();
    r := instance;
  }
}
