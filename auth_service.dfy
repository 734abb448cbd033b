/** `AuthServiceImpl`: local sign-up with a unique email and a hashed password. */
module AuthService {
  import opened Wrappers
  import opened Repositories

  /**
   * The sign-up form: the properties `BeanUtils.copyProperties` copies onto the new user. The
   * request body is bound without validation, so any of them may be null.
   */
  datatype SignupRequest = SignupRequest(email: Option<string>, username: Option<string>, password: Option<string>)

  /** The exception `createUser` can end with: `BCryptPasswordEncoder.encode(null)` is refused. */
  datatype SignupError = NullPassword

  class AuthServiceImpl {
    const userRepository: UserRepository
    /** `PasswordEncoder.encode` of a non-null password, a one-way function given to the service. */
    const passwordEncoder: string -> string

    constructor (userRepository: UserRepository, passwordEncoder: string -> string)
      ensures this.userRepository == userRepository && this.passwordEncoder == passwordEncoder
    {
      this.userRepository := userRepository;
      this.passwordEncoder := passwordEncoder;
    }

    /**
     * `createUser(request)`: refuses an email that is already registered (`false`), leaving the
     * table as it was. Otherwise it encodes the password: a null one makes the encoder throw
     * before anything is saved. Else exactly one new row is stored, with the request's email
     * and username and the ENCODED password (`true`). Afterwards the email is registered, and
     * a table without duplicate emails still has none.
     */
    method CreateUser(signupRequest: SignupRequest) returns (r: Result<bool, SignupError>)
      requires userRepository.Valid()
      modifies userRepository
      ensures userRepository.Valid()
      ensures r == Success(false) <==> old(userRepository.ExistsByEmail(signupRequest.email))
      ensures r == Failure(NullPassword) <==>
                !old(userRepository.ExistsByEmail(signupRequest.email)) && signupRequest.password.None?
      ensures r != Success(true) ==> unchanged(userRepository)
      ensures r == Success(true) ==>
                && userRepository.rows == old(userRepository.rows) +
                     [User(Some(old(userRepository.nextId)), signupRequest.email,
                           Some(passwordEncoder(signupRequest.password.value)), signupRequest.username)]
                && userRepository.nextId == old(userRepository.nextId) + 1
      ensures r == Success(true) ==> userRepository.ExistsByEmail(signupRequest.email)
      ensures old(EmailsUnique(userRepository.rows)) ==> EmailsUnique(userRepository.rows)
    {
      if userRepository.ExistsByEmail(signupRequest.email) {
        return Success(false);
      }
      var user := NewUser();
      user := user.(email := signupRequest.email, username := signupRequest.username,
                    password := signupRequest.password);
      if signupRequest.password.None? {
        return Failure(NullPassword);
      }
      var hashPassword := passwordEncoder(signupRequest.password.value);
      user := user.(password := Some(hashPassword));
      ghost var before := userRepository.rows;
      if EmailsUnique(before) {
        AppendFreshEmailKeepsUnique(before, user.(id := Some(userRepository.nextId)));
      }
      var saved := userRepository.Save(user);
      assert userRepository.rows[|before|] == saved;
      return Success(true);
    }
  }
}
