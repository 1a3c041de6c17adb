/** Requests, responses and response codes, and the parts of the program that are
    parameters here: JSON text and the password hash. */
module Api {
  import opened Framing

  datatype Request =
    | Register(nickname: string, email: string, passHash: string)
    | Login(email: string, passHash: string)
    | Unregister(email: string, passHash: string)
    | Other

  datatype RegisterCode = REGISTER_OK | NAME_TAKEN | REGISTER_ETC
  datatype LoginCode = LOGIN_OK | NAME_UNKNOWN | PASS_INCORRECT | LOGIN_ETC
  datatype UnregisterCode = UNREGISTER_OK | NO_NAME | NO_PASS | UNREGISTER_ETC

  datatype Response =
    | ConnectResponse(connectCode: nat)
    | RegisterResponse(registerCode: RegisterCode, registerText: string)
    | LoginResponse(loginCode: LoginCode, loginText: string)
    | UnregisterResponse(unregisterCode: UnregisterCode, unregisterText: string)

  /** `parse` reads a JSON body, `render` prints a response, `hash` is SHA-512 in hex. */
  datatype Env = Env(
    parse: Bytes -> Request,
    render: Response -> Body,
    hash: string -> string,
    salt: string)
  {
    function Salted(pass: string): string {
      hash(pass + salt)
    }
  }

  /** The response type that answers a request of each recognised type. */
  predicate Answers(rsp: Response, req: Request) {
    match req
    case Register(_, _, _) => rsp.RegisterResponse?
    case Login(_, _) => rsp.LoginResponse?
    case Unregister(_, _) => rsp.UnregisterResponse?
    case Other => false
  }
}
