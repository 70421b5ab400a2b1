/** Properties of the auth service that relate several calls: a taken email
    cannot be signed up again, the two login failures look the same, and a
    fresh signup can log in and gets a token for itself. */
module AuthProperties {
  import opened Common
  import opened Auth

  /** Signing up an email a second time fails with "Credentials taken!" and
      stores nothing, whatever the password and the generated id. */
  lemma SignupTwiceFails(us: Users, dto: AuthDto, again: AuthDto, id1: string, id2: string,
                         t1: int, t2: int, hash: string -> string)
    requires Signup(us, dto, id1, t1, hash, None).result.Ok?
    requires again.email == dto.email
    ensures var us' := Signup(us, dto, id1, t1, hash, None).users;
      Signup(us', again, id2, t2, hash, None) == SignupStep(Err(Forbidden(CredentialsTaken)), us')
  {
    var us' := Signup(us, dto, id1, t1, hash, None).users;
    assert us'[|us|].email == again.email;
  }

  /** Signup keeps emails a unique column. */
  lemma SignupPreservesUniqueEmails(us: Users, dto: AuthDto, id: string, now: int,
                                    hash: string -> string, fault: Option<StorageError>)
    requires EmailsUnique(us)
    ensures EmailsUnique(Signup(us, dto, id, now, hash, fault).users)
  {
  }

  /** An unknown email and a known email with a wrong password are refused
      with the very same error, so a caller cannot tell the causes apart. */
  lemma LoginFailuresIndistinguishable(us: Users, unknown: AuthDto, wrong: AuthDto, i: nat,
                                       verify: (string, string) -> bool, secret: Option<string>,
                                       sign: (JwtPayload, SignOptions) -> string)
    requires !HasEmail(us, unknown.email)
    requires FirstWithEmail(us, wrong.email, i) && !verify(us[i].hash, wrong.password)
    ensures Login(us, unknown, None, verify, secret, sign) == Login(us, wrong, None, verify, secret, sign)
    ensures Login(us, unknown, None, verify, secret, sign) == Err(Forbidden(CredentialsIncorrect))
  {
  }

  /** After a successful signup, logging in with the same credentials (when
      the hash verifies its own password) answers the new user, without the
      hash, with a token whose subject is the new id. */
  lemma LoginAfterSignup(us: Users, dto: AuthDto, id: string, now: int, hash: string -> string,
                         verify: (string, string) -> bool, secret: Option<string>,
                         sign: (JwtPayload, SignOptions) -> string)
    requires Signup(us, dto, id, now, hash, None).result.Ok?
    requires verify(hash(dto.password), dto.password)
    ensures var us' := Signup(us, dto, id, now, hash, None).users;
      Login(us', dto, None, verify, secret, sign)
      == Ok(LoginResponse(id, dto.email, now, None, None,
                          sign(JwtPayload(id, dto.email), SignOptions(TokenLifetimeMinutes, secret))))
  {
    var us' := Signup(us, dto, id, now, hash, None).users;
    assert FirstWithEmail(us', dto.email, |us|) by {
      forall j | 0 <= j < |us| ensures us'[j].email != dto.email {
        assert us'[j] == us[j];
      }
    }
    var r := Login(us', dto, None, verify, secret, sign);
    var k :| FirstWithEmail(us', dto.email, k)
      && r.value == LoginResponse(us'[k].id, us'[k].email, us'[k].createdAt, us'[k].firstName,
                                  us'[k].lastName, r.value.accessToken);
    assert !(k < |us|) && !(|us| < k);
  }
}
