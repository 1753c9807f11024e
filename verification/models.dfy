/** The `User` entity (valutatrade_hub/core/models.py). */
module Models {
  import opened Json
  import opened Errors
  import opened Text
  import opened Currencies

  /** SHA-256 of the UTF-8 encoding, as a hex digest; left uninterpreted. */
  type Hash = string -> string

  /** A hash that never maps two different texts to one digest. */
  ghost predicate Injective(sha: Hash) {
    forall a, b :: sha(a) == sha(b) ==> a == b
  }

  /** `User._hash_password`: the digest of the password followed by the salt. */
  function HashPassword(password: string, salt: string, sha: Hash): string {
    sha(password + salt)
  }

  /** The check of the `username` setter: a non-string or blank value raises
      `ValueError`; otherwise the stripped text is what gets stored. */
  function CheckUsername(value: Json): (r: Result<string>)
    ensures r.Ok? <==> NonBlankStr(value)
    ensures r.Ok? ==> r.value == Strip(value.s) && StrippedText(r.value)
    ensures r.Err? ==> r.error == ValueError("username")
  {
    if !NonBlankStr(value) then Err(ValueError("username"))
    else
      StrippedField(value.s);
      Ok(Strip(value.s))
  }

  /** What `get_user_info` exposes: there is no field for the hash or the salt. */
  datatype UserInfo = UserInfo(userId: int, username: string, registrationDate: string)

  class User {
    const userId: int
    var username: string
    var hashedPassword: string
    var salt: string
    /** The registration moment, as its ISO text. */
    const registrationDate: string

    /** The username setter keeps the name non-blank and stripped. */
    ghost predicate Valid()
      reads this
    {
      StrippedText(username)
    }

    /** Assigns the fields; `New` runs the username check before calling it. */
    constructor Init(userId: int, username: string, hashedPassword: string, salt: string, registrationDate: string)
      ensures this.userId == userId && this.username == username
      ensures this.hashedPassword == hashedPassword && this.salt == salt
      ensures this.registrationDate == registrationDate
    {
      this.userId := userId;
      this.username := username;
      this.hashedPassword := hashedPassword;
      this.salt := salt;
      this.registrationDate := registrationDate;
    }

    /** `User(...)`: the constructor goes through the username setter, so a
        blank or non-string name raises `ValueError`. */
    static method New(userId: int, username: Json, hashedPassword: string, salt: string,
                      registrationDate: string) returns (r: Result<User>)
      ensures r.Ok? <==> NonBlankStr(username)
      ensures r.Err? ==> r.error == ValueError("username")
      ensures r.Ok? ==> fresh(r.value) && r.value.Valid()
      ensures r.Ok? ==> r.value.userId == userId && r.value.username == Strip(username.s)
      ensures r.Ok? ==> r.value.hashedPassword == hashedPassword && r.value.salt == salt
      ensures r.Ok? ==> r.value.registrationDate == registrationDate
    {
      var name := CheckUsername(username);
      if name.Err? {
        return Err(name.error);
      }
      var u := new User.Init(userId, name.value, hashedPassword, salt, registrationDate);
      return Ok(u);
    }

    /** The `username` setter: a blank or non-string value raises `ValueError`
        and changes nothing; otherwise the stripped value is stored. */
    method SetUsername(value: Json) returns (o: Outcome)
      modifies this
      ensures o.Pass? <==> NonBlankStr(value)
      ensures o.Fail? ==> o.error == ValueError("username") && username == old(username)
      ensures o.Pass? ==> username == Strip(value.s) && Valid()
      ensures hashedPassword == old(hashedPassword) && salt == old(salt)
    {
      var name := CheckUsername(value);
      if name.Err? {
        return Fail(name.error);
      }
      username := name.value;
      return Pass;
    }

    /** `get_user_info`: id, username and registration date. */
    function Info(): (r: UserInfo)
      reads this
      ensures r.userId == userId && r.username == username && r.registrationDate == registrationDate
    {
      UserInfo(userId, username, registrationDate)
    }

    /** `change_password`: a non-string or a password shorter than 4
        characters raises `ValueError` and keeps the salt and the hash; otherwise
        both are replaced, the hash computed with the new salt, so that the new
        password verifies. `newSalt` stands for `generate_salt()`. */
    method ChangePassword(newPassword: Json, newSalt: string, sha: Hash) returns (o: Outcome)
      modifies this
      ensures o.Pass? <==> newPassword.JStr? && |newPassword.s| >= 4
      ensures o.Fail? ==> o.error == ValueError("password")
      ensures o.Fail? ==> salt == old(salt) && hashedPassword == old(hashedPassword)
      ensures o.Pass? ==> salt == newSalt && hashedPassword == HashPassword(newPassword.s, newSalt, sha)
      ensures o.Pass? ==> VerifyPassword(newPassword, sha)
      ensures o.Pass? && Injective(sha) ==>
        forall q :: VerifyPassword(q, sha) <==> q == newPassword
      ensures username == old(username) && Info() == old(Info())
    {
      if !newPassword.JStr? || |newPassword.s| < 4 {
        return Fail(ValueError("password"));
      }
      var newHash := HashPassword(newPassword.s, newSalt, sha);
      salt := newSalt;
      hashedPassword := newHash;
      if Injective(sha) {
        forall q | VerifyPassword(q, sha)
          ensures q == newPassword
        {
          OnlyOnePasswordVerifies(q.s, newPassword.s, newSalt, sha);
        }
      }
      return Pass;
    }

    /** `verify_password`: false for a non-string; otherwise whether the
        password hashed with the stored salt gives the stored hash. */
    function VerifyPassword(password: Json, sha: Hash): (r: bool)
      reads this
      ensures !password.JStr? ==> !r
      ensures r ==> HashPassword(password.s, salt, sha) == hashedPassword
    {
      password.JStr? && HashPassword(password.s, salt, sha) == hashedPassword
    }
  }

  /** With an injective hash, the stored salt and hash verify one password
      only: two passwords that both verify are equal. */
  lemma {:induction false} OnlyOnePasswordVerifies(p: string, q: string, salt: string, sha: Hash)
    requires Injective(sha)
    requires HashPassword(p, salt, sha) == HashPassword(q, salt, sha)
    ensures p == q
  {
    assert p + salt == q + salt;
    assert |p| == |q|;
    assert p == (p + salt)[..|p|];
    assert q == (q + salt)[..|q|];
  }
}
