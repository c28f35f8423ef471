/**
 * The foreign calls the core makes and whose code is not modelled:
 * bcryptjs `hash` / `compare` and zod's `.email()` format check.
 * They are passed around as function values so that every theorem
 * holds for any implementation of them.
 */
module Foreign {

  datatype Env = Env(
    isEmail: string -> bool,            // zod's email-format check
    hash: string -> string,             // bcryptjs `hash(password, 12)`
    verify: (string, string) -> bool,   // bcryptjs `compare(password, hashed)`
    compareThrows: (string, string) -> bool)  // `compare` rejects: the stored value is no bcrypt hash
  {
    /**
     * What is assumed of the foreign code: the empty string is no email
     * address; a hash is never the empty string (a bcrypt hash has 60
     * characters), and a password verifies against its own hash without
     * `compare` throwing.
     */
    ghost predicate Sound()
    {
      && !isEmail("")
      && forall p :: hash(p) != "" && verify(p, hash(p)) && !compareThrows(p, hash(p))
    }
  }
}
