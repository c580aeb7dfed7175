/** The user table (`UserManager`): user documents keyed by CPF, with hashed
    passwords, protected fields, a status-gated login and soft deactivation.
    bcrypt's salted hashing and its check are parameters `hash` and `check`. */
module Users {
  import opened Documents

  /** Fields `update_user` never writes. */
  const ProtectedFields: set<string> := {"cpf", "data_cadastro"}
  /** Application version recorded when the settings carry none. */
  const DefaultAppVersion := "1.0.0"

  /** The existence test of every operation: the stored dictionary is truthy,
      so a document without fields counts as absent. */
  predicate Exists(users: map<string, Doc>, cpf: string) {
    cpf in users && users[cpf] != map[]
  }

  /** No stored document holds a plaintext `senha`. */
  predicate NoPlaintext(users: map<string, Doc>) {
    forall cpf :: cpf in users ==> "senha" !in users[cpf]
  }

  /** The document `create_user` stores; the optional `nome`, `email` and
      `telefone` are added only when truthy. */
  function NewUserDoc(cpf: string, senhaHash: string, idContato: Value, now: int, appVersion: Option<Value>,
                      nome: Value, email: Value, telefone: Value, perfil: Value): (d: Doc)
    ensures {"cpf", "senha_hash", "id_contato_bling", "data_cadastro", "status", "perfil", "metadata"} <= d.Keys
    ensures d["cpf"] == VStr(cpf) && d["senha_hash"] == VStr(senhaHash) && d["id_contato_bling"] == idContato
    ensures d["data_cadastro"] == VTime(now) && d["status"] == VStr("ativo") && d["perfil"] == perfil
    ensures ("nome" in d <==> Truthy(nome)) && ("email" in d <==> Truthy(email)) && ("telefone" in d <==> Truthy(telefone))
    ensures "nome" in d ==> d["nome"] == nome
    ensures "email" in d ==> d["email"] == email
    ensures "telefone" in d ==> d["telefone"] == telefone
    ensures "senha" !in d && "ultimo_acesso" !in d
  {
    var base := map["cpf" := VStr(cpf), "senha_hash" := VStr(senhaHash), "id_contato_bling" := idContato,
                    "data_cadastro" := VTime(now), "status" := VStr("ativo"), "perfil" := perfil];
    var withNome := if Truthy(nome) then base["nome" := nome] else base;
    var withEmail := if Truthy(email) then withNome["email" := email] else withNome;
    var withTelefone := if Truthy(telefone) then withEmail["telefone" := telefone] else withEmail;
    var version := if appVersion.Some? then appVersion.value else VStr(DefaultAppVersion);
    withTelefone["metadata" := VMap(map["versao_app" := version, "ultimo_acesso" := VTime(now)])]
  }

  /** The fields `update_user` writes: the input without the protected fields,
      with a plaintext `senha` replaced by its hash under `senha_hash`. A
      `senha` that is not a string makes hashing raise: None. */
  function FilteredUpdate(data: Doc, hash: string -> string): (r: Option<Doc>)
    ensures r.None? <==> "senha" in data && !data["senha"].VStr?
    ensures r.Some? ==> "cpf" !in r.value && "data_cadastro" !in r.value && "senha" !in r.value
    ensures r.Some? ==> forall k :: k in r.value ==> k in data || k == "senha_hash"
    ensures r.Some? ==> forall k :: k in data && k !in ProtectedFields && k != "senha" && k != "senha_hash" ==> k in r.value && r.value[k] == data[k]
    ensures r.Some? && "senha" in data ==> "senha_hash" in r.value && r.value["senha_hash"] == VStr(hash(data["senha"].s))
    ensures r.Some? && "senha" !in data && "senha_hash" in data ==> "senha_hash" in r.value && r.value["senha_hash"] == data["senha_hash"]
  {
    var kept := map k | k in data && k !in ProtectedFields :: data[k];
    if "senha" in kept then
      match kept["senha"]
      case VStr(p) => Some((kept - {"senha"})["senha_hash" := VStr(hash(p))])
      case _ => None
    else Some(kept)
  }

  /** The login test of `verify_password` on a stored user: status `ativo`, a
      non-empty string hash, and the password checks against it. */
  predicate PasswordAccepted(user: Doc, senha: string, check: (string, string) -> bool) {
    Get(user, "status") == VStr("ativo") &&
    match Get(user, "senha_hash")
    case VStr(h) => h != "" && check(senha, h)
    case _ => false
  }

  /** The document after `deactivate_user`. */
  function Deactivated(user: Doc, now: int): Doc {
    user["status" := VStr("inativo")]["data_desativacao" := VTime(now)]
  }

  /** A freshly created user logs in with a password exactly when it checks
      against the hash of the password given at creation. */
  lemma CreatedUserLogsIn(cpf: string, senha: string, idContato: Value, now: int, appVersion: Option<Value>,
                          nome: Value, email: Value, telefone: Value, perfil: Value,
                          hash: string -> string, check: (string, string) -> bool, attempt: string)
    requires hash(senha) != ""
    ensures PasswordAccepted(NewUserDoc(cpf, hash(senha), idContato, now, appVersion, nome, email, telefone, perfil), attempt, check)
            <==> check(attempt, hash(senha))
  {
  }

  /** A deactivated user is refused whatever the password. */
  lemma DeactivatedUserRefused(user: Doc, now: int, senha: string, check: (string, string) -> bool)
    ensures !PasswordAccepted(Deactivated(user, now), senha, check)
    ensures Get(Deactivated(user, now), "status") == VStr("inativo")
  {
  }

  /** An update leaves `cpf` and `data_cadastro` exactly as they were, and
      writes no plaintext password. */
  lemma UpdateKeepsProtected(user: Doc, data: Doc, hash: string -> string)
    requires FilteredUpdate(data, hash).Some?
    ensures var after := user + FilteredUpdate(data, hash).value;
            (forall k :: k in ProtectedFields ==> (k in after <==> k in user) && (k in user ==> after[k] == user[k]))
            && ("senha" in after <==> "senha" in user)
  {
  }

  /** A created user is found by the existence test every operation starts
      with: the new document is never empty, so a second create with the same
      CPF is refused, and the stored document is the one built. */
  lemma CreatedUserIsFound(users: map<string, Doc>, cpf: string, senhaHash: string, idContato: Value, now: int,
                           appVersion: Option<Value>, nome: Value, email: Value, telefone: Value, perfil: Value)
    ensures var doc := NewUserDoc(cpf, senhaHash, idContato, now, appVersion, nome, email, telefone, perfil);
            var after := users[cpf := doc];
            Exists(after, cpf) && after[cpf] == doc && Get(after[cpf], "status") == VStr("ativo")
  {
    var doc := NewUserDoc(cpf, senhaHash, idContato, now, appVersion, nome, email, telefone, perfil);
    assert "cpf" in doc;
  }

  /** Deactivation is soft: the user is still found, now `inativo`, so its CPF
      cannot be registered again. */
  lemma DeactivatedUserIsFound(users: map<string, Doc>, cpf: string, now: int)
    requires cpf in users
    ensures var after := users[cpf := Deactivated(users[cpf], now)];
            Exists(after, cpf) && Get(after[cpf], "status") == VStr("inativo")
  {
    assert "status" in Deactivated(users[cpf], now);
  }

  /** A create after a failed lookup replaces whatever was stored under the
      CPF: even a deactivated user comes back `ativo`, with the new password's
      hash, a new `data_cadastro` and no `data_desativacao`. */
  lemma CreateOverExistingReplaces(users: map<string, Doc>, cpf: string, senhaHash: string, idContato: Value,
                                   now: int, appVersion: Option<Value>, nome: Value, email: Value, telefone: Value,
                                   perfil: Value)
    ensures var after := users[cpf := NewUserDoc(cpf, senhaHash, idContato, now, appVersion, nome, email, telefone, perfil)];
            Get(after[cpf], "status") == VStr("ativo") && Get(after[cpf], "senha_hash") == VStr(senhaHash)
            && Get(after[cpf], "data_cadastro") == VTime(now) && "data_desativacao" !in after[cpf]
  {
    var doc := NewUserDoc(cpf, senhaHash, idContato, now, appVersion, nome, email, telefone, perfil);
    assert "status" in doc && "senha_hash" in doc && "data_cadastro" in doc;
  }

  class UserManager {
    /** The `users` collection: document id (the CPF) to its fields. */
    var users: map<string, Doc>

    ghost predicate Valid()
      reads this
    {
      NoPlaintext(users)
    }

    constructor (stored: map<string, Doc>)
      requires NoPlaintext(stored)
      ensures Valid() && users == stored
    {
      users := stored;
    }

    /** `get_user_by_cpf`: the stored fields, or None when there is no document
        or when the read fails (`readOk` false: the exception is caught). The
        operations treat a user as present when this answer is truthy. */
    function GetUserByCpf(cpf: string, readOk: bool): (r: Option<Doc>)
      reads this
      ensures r.Some? <==> readOk && cpf in users
      ensures r.Some? ==> r.value == users[cpf]
      ensures (r.Some? && r.value != map[]) <==> readOk && Exists(users, cpf)
    {
      if readOk && cpf in users then Some(users[cpf]) else None
    }

    /** `create_user`: refuse a CPF the lookup finds; otherwise store the new
        document under the CPF and return it. A failed lookup (`readOk` false)
        reads as a free CPF, so the `set` then replaces any document stored
        there. `setOk` is the outcome of the store's `set`; a failure is caught
        and gives None. */
    method CreateUser(cpf: string, senha: string, idContato: Value, hash: string -> string, now: int,
                      appVersion: Option<Value>, readOk: bool, setOk: bool, nome: Value := VNone, email: Value := VNone,
                      telefone: Value := VNone, perfil: Value := VStr("cliente"))
      returns (r: Option<string>)
      requires Valid()
      modifies this`users
      ensures Valid()
      ensures r.Some? <==> (!readOk || !Exists(old(users), cpf)) && setOk
      ensures !readOk && setOk ==>
                users == old(users)[cpf := NewUserDoc(cpf, hash(senha), idContato, now, appVersion, nome, email, telefone, perfil)]
      ensures r.None? ==> users == old(users)
      ensures r.Some? ==>
                r.value == cpf
                && users == old(users)[cpf := NewUserDoc(cpf, hash(senha), idContato, now, appVersion, nome, email, telefone, perfil)]
      ensures r.Some? ==>
                Exists(users, cpf)
                && GetUserByCpf(cpf, true) == Some(NewUserDoc(cpf, hash(senha), idContato, now, appVersion, nome, email, telefone, perfil))
    {
      var existing := GetUserByCpf(cpf, readOk);
      if existing.Some? && existing.value != map[] {
        return None;
      }
      var doc := NewUserDoc(cpf, hash(senha), idContato, now, appVersion, nome, email, telefone, perfil);
      if !setOk {
        return None;
      }
      CreatedUserIsFound(users, cpf, hash(senha), idContato, now, appVersion, nome, email, telefone, perfil);
      users := users[cpf := doc];
      r := Some(cpf);
    }

    /** `update_user`: drop the protected fields, hash a new password, and
        merge the rest into the stored document. `updateOk` is the outcome of
        the store's `update`; a failure is caught and gives False. */
    method UpdateUser(cpf: string, data: Doc, hash: string -> string, readOk: bool, updateOk: bool) returns (ok: bool)
      requires Valid()
      modifies this`users
      ensures Valid()
      ensures ok <==> readOk && Exists(old(users), cpf) && FilteredUpdate(data, hash).Some? && updateOk
      ensures users == if ok then old(users)[cpf := old(users)[cpf] + FilteredUpdate(data, hash).value] else old(users)
    {
      var existing := GetUserByCpf(cpf, readOk);
      if existing.None? || existing.value == map[] {
        return false;
      }
      var updateData := map k | k in data && k !in ProtectedFields :: data[k];
      if "senha" in updateData {
        if !updateData["senha"].VStr? {
          return false;
        }
        var senhaHash := hash(updateData["senha"].s);
        updateData := (updateData - {"senha"})["senha_hash" := VStr(senhaHash)];
      }
      assert Some(updateData) == FilteredUpdate(data, hash);
      if !updateOk {
        return false;
      }
      users := users[cpf := users[cpf] + updateData];
      ok := true;
    }

    /** `verify_password`: check the password of an active user, and record
        the access when it matches. `updateOk` is the outcome of that record's
        `update`; a failure is caught and turns a match into False. */
    method VerifyPassword(cpf: string, senha: string, check: (string, string) -> bool, now: int,
                          readOk: bool, updateOk: bool)
      returns (ok: bool)
      requires Valid()
      modifies this`users
      ensures Valid()
      ensures ok <==> readOk && Exists(old(users), cpf) && PasswordAccepted(old(users)[cpf], senha, check) && updateOk
      ensures users == if ok then old(users)[cpf := old(users)[cpf]["ultimo_acesso" := VTime(now)]] else old(users)
    {
      var user := GetUserByCpf(cpf, readOk);
      if user.None? || user.value == map[] {
        return false;
      }
      if Get(user.value, "status") != VStr("ativo") {
        return false;
      }
      var storedHash := Get(user.value, "senha_hash");
      if !storedHash.VStr? || storedHash.s == "" {
        return false;
      }
      var result := check(senha, storedHash.s);
      if !result || !updateOk {
        return false;
      }
      users := users[cpf := users[cpf]["ultimo_acesso" := VTime(now)]];
      ok := true;
    }

    /** `deactivate_user`: mark an existing user `inativo` without removing it.
        `updateOk` is the outcome of the store's `update`; a failure is caught
        and gives False. */
    method DeactivateUser(cpf: string, now: int, readOk: bool, updateOk: bool) returns (ok: bool)
      requires Valid()
      modifies this`users
      ensures Valid()
      ensures ok <==> readOk && Exists(old(users), cpf) && updateOk
      ensures users == if ok then old(users)[cpf := Deactivated(old(users)[cpf], now)] else old(users)
      ensures ok ==> Exists(users, cpf) && Get(GetUserByCpf(cpf, true).value, "status") == VStr("inativo")
    {
      var existing := GetUserByCpf(cpf, readOk);
      if existing.None? || existing.value == map[] || !updateOk {
        return false;
      }
      DeactivatedUserIsFound(users, cpf, now);
      users := users[cpf := Deactivated(users[cpf], now)];
      ok := true;
    }
  }
}
