/**
 * Password hashing as the application uses BCrypt: `hashPassword` and `checkPassword`.
 * The hash below is a deterministic stand-in that has the two properties the code relies on:
 * every hash begins with the "$2" version prefix, and a password checks against its own hash.
 */
module Password {
  import opened Wrappers
  import opened JavaText

  /** The version and cost that BCrypt.gensalt() puts in front of every hash. */
  const HASH_PREFIX: string := "$2a$10$"

  /** The prefix the credential migration takes as the mark of a hash. */
  const BCRYPT_MARK: string := "$2"

  /** The header jBCrypt's `hashpw` accepts in a salt: the version "$2", then "$" or the revision "a$". */
  predicate HashHeader(s: string) {
    StartsWith(s, "$2$") || StartsWith(s, "$2a$")
  }

  function Hash(plain: string): (h: string)
    ensures StartsWith(h, BCRYPT_MARK)
    ensures HashHeader(h)
  {
    assert (HASH_PREFIX + plain)[..4] == "$2a$";
    HASH_PREFIX + plain
  }

  predicate Check(plain: string, hashed: string) {
    hashed == Hash(plain)
  }

  /**
   * The text a possibly null password becomes inside `hashpw`, which appends to it with string
   * concatenation: a null password is hashed as the four letters "null".
   */
  function ValueOf(p: Option<string>): (r: string)
    ensures p.Some? ==> r == p.value
    ensures p.None? ==> r == "null"
  {
    if p.Some? then p.value else "null"
  }

  /** A password checks against the hash made of it, and no other password does. */
  lemma CheckHash(plain: string, other: string)
    ensures Check(plain, Hash(plain))
    ensures Check(other, Hash(plain)) <==> other == plain
  {
    if Check(other, Hash(plain)) {
      assert Hash(plain)[|HASH_PREFIX|..] == plain;
      assert Hash(other)[|HASH_PREFIX|..] == other;
    }
  }

  /**
   * `checkPassword(plain, stored)`, which re-hashes `plain` with the salt read from `stored`. The
   * header checks of jBCrypt's `hashpw` are modelled in their order: a null stored value throws, a
   * value too short for the next character read throws an index error, a value not starting with
   * "$2" is refused as an invalid salt version, and a revision other than none or "a" as an invalid
   * salt revision. A null plaintext is hashed as "null".
   */
  function CheckPassword(plain: Option<string>, stored: Option<string>): (r: Result<bool>)
    ensures r.Ok? <==> stored.Some? && HashHeader(stored.value)
    ensures r.Ok? ==> (r.value <==> stored.value == Hash(ValueOf(plain)))
    ensures stored.None? ==> r == Err(NullPointer)
    ensures stored.Some? && |stored.value| >= 2 && !StartsWith(stored.value, BCRYPT_MARK) ==>
              r == Err(IllegalArgument("Invalid salt version"))
    ensures stored.Some? && |stored.value| >= 3 && StartsWith(stored.value, BCRYPT_MARK) &&
            stored.value[2] != '$' && stored.value[2] != 'a' ==>
              r == Err(IllegalArgument("Invalid salt revision"))
  {
    if stored.None? then Err(NullPointer)
    else
      var s := stored.value;
      if |s| == 0 then Err(IndexOutOfBounds(0))
      else if s[0] != '$' then Err(IllegalArgument("Invalid salt version"))
      else if |s| == 1 then Err(IndexOutOfBounds(1))
      else if s[1] != '2' then Err(IllegalArgument("Invalid salt version"))
      else if |s| == 2 then Err(IndexOutOfBounds(2))
      else if s[2] == '$' then Ok(Check(ValueOf(plain), s))
      else if s[2] != 'a' then Err(IllegalArgument("Invalid salt revision"))
      else if |s| == 3 then Err(IndexOutOfBounds(3))
      else if s[3] != '$' then Err(IllegalArgument("Invalid salt revision"))
      else Ok(Check(ValueOf(plain), s))
  }
}
