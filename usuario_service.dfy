/** Accounts: self-registration as a patient, the lookup behind
    authentication, and the account holder's own profile and password
    changes. */
module UsuarioService {
  import opened Secuencias
  import opened Entidades
  import opened Repositorios

  /** What an encoder promises: a password matches its own encoding. */
  ghost predicate CodificadorCoherente(encode: Codificador, matches: Comparador) {
    forall p :: matches(p, encode(p))
  }

  // ---------------------------------------------------------------------
  // registrarUsuario
  // ---------------------------------------------------------------------

  /** The registration request. Its role field is read but never used. */
  datatype DatosRegistro = DatosRegistro(perfil: Perfil, email: string, password: string, rol: string)

  /** The outcome of registrarUsuario: a used email is refused, then the
      patient role must exist; the account is saved under key nuevoId with
      the encoded password and role ROLE_PACIENTE. */
  function Registro(us: seq<Usuario>, roles: set<string>, datos: DatosRegistro, encode: Codificador,
                    nuevoId: nat): Result<Usuario>
  {
    if UsuarioPorEmail(us, datos.email).Some? then Err(EmailEnUso)
    else if RolPaciente !in roles then Err(RolNoEncontrado(RolPaciente))
    else Ok(Usuario(nuevoId, datos.perfil, datos.email, encode(datos.password), RolPaciente, true))
  }

  /** Registration fails exactly for a used email or a missing patient role;
      whatever role the request asks for, the account is a patient's, with
      the requested profile and email and the encoded password. */
  lemma RegistroSii(us: seq<Usuario>, roles: set<string>, datos: DatosRegistro, encode: Codificador, nuevoId: nat)
    ensures var r := Registro(us, roles, datos, encode, nuevoId);
            var emailLibre := forall j :: 0 <= j < |us| ==> us[j].email != datos.email;
            && (r == Err(EmailEnUso) <==> !emailLibre)
            && (r == Err(RolNoEncontrado(RolPaciente)) <==> emailLibre && RolPaciente !in roles)
            && (r.Ok? ==>
                  && r.value.rol == RolPaciente && r.value.email == datos.email
                  && r.value.perfil == datos.perfil && r.value.password == encode(datos.password)
                  && r.value.id == nuevoId && r.value.enabled)
            && (forall otro :: Registro(us, roles, datos.(rol := otro), encode, nuevoId) == r)
  {
  }

  /** registrarUsuario: the account is appended under the next generated key. */
  method RegistrarUsuario(db: Store, datos: DatosRegistro, encode: Codificador) returns (r: Result<Usuario>)
    modifies db`usuarios, db`nextId
    ensures r == Registro(old(db.usuarios), db.roles, datos, encode, old(db.nextId))
    ensures r.Ok? ==> db.usuarios == old(db.usuarios) + [r.value] && db.nextId == old(db.nextId) + 1
    ensures r.Err? ==> db.usuarios == old(db.usuarios) && db.nextId == old(db.nextId)
  {
    if UsuarioPorEmail(db.usuarios, datos.email).Some? {
      return Err(EmailEnUso);
    }
    if RolPaciente !in db.roles {
      return Err(RolNoEncontrado(RolPaciente));
    }
    var nuevo := Usuario(db.nextId, datos.perfil, datos.email, encode(datos.password), RolPaciente, true);
    db.usuarios := db.usuarios + [nuevo];
    db.nextId := db.nextId + 1;
    return Ok(nuevo);
  }

  /** A registration keeps the database consistent. */
  lemma RegistroConservaConsistencia(us: seq<Usuario>, roles: set<string>, es: seq<Especialidad>,
                                     ms: seq<Medico>, hs: seq<Horario>, cs: seq<Cita>, nextId: nat,
                                     datos: DatosRegistro, encode: Codificador)
    requires Consistente(us, es, ms, hs, cs, nextId)
    requires Registro(us, roles, datos, encode, nextId).Ok?
    ensures Consistente(us + [Registro(us, roles, datos, encode, nextId).value], es, ms, hs, cs, nextId + 1)
  {
    AgregarUsuarioConsistente(us, Registro(us, roles, datos, encode, nextId).value, es, ms, hs, cs, nextId);
  }

  // ---------------------------------------------------------------------
  // buscarPorEmail and loadUserByUsername
  // ---------------------------------------------------------------------

  /** buscarPorEmail: the account holding the email. */
  function BuscarPorEmail(us: seq<Usuario>, email: string): (r: Result<Usuario>)
    ensures r.Err? <==> forall j :: 0 <= j < |us| ==> us[j].email != email
    ensures r.Err? ==> r.error == UsuarioNoEncontrado
    ensures r.Ok? ==> r.value in us && r.value.email == email
  {
    match UsuarioPorEmail(us, email)
    case None => Err(UsuarioNoEncontrado)
    case Some(k) => Ok(us[k])
  }

  /** The security principal built for an account. */
  datatype UserDetails = UserDetails(
    username: string,
    password: string,
    enabled: bool,
    accountNonExpired: bool,
    credentialsNonExpired: bool,
    accountNonLocked: bool,
    authorities: seq<string>)

  /** loadUserByUsername: the email is the user name; the principal carries
      the stored hash, the account's enabled flag, never expires nor locks,
      and holds the role name as its single authority. */
  function LoadUserByUsername(us: seq<Usuario>, username: string): Result<UserDetails>
  {
    match BuscarPorEmail(us, username)
    case Err(e) => Err(e)
    case Ok(u) => Ok(UserDetails(u.email, u.password, u.enabled, true, true, true, [u.rol]))
  }

  /** A principal exists exactly for an email some account holds, and it
      mirrors that account. */
  lemma LoadUserByUsernameSii(us: seq<Usuario>, username: string)
    ensures var r := LoadUserByUsername(us, username);
            && (r.Err? <==> forall u :: u in us ==> u.email != username)
            && (r.Ok? ==> exists u :: u in us && u.email == username
                             && r.value == UserDetails(username, u.password, u.enabled, true, true, true, [u.rol]))
  {
    if BuscarPorEmail(us, username).Err? {
      forall u | u in us ensures u.email != username {
        var j :| 0 <= j < |us| && us[j] == u;
      }
    } else {
      var u := BuscarPorEmail(us, username).value;
      assert u in us;
    }
  }

  /** A newly registered patient signs in under their email, enabled, with
      the encoded password and the patient authority only. */
  lemma RegistroYLogin(us: seq<Usuario>, roles: set<string>, datos: DatosRegistro, encode: Codificador,
                       nuevoId: nat)
    requires Registro(us, roles, datos, encode, nuevoId).Ok?
    ensures LoadUserByUsername(us + [Registro(us, roles, datos, encode, nuevoId).value], datos.email)
            == Ok(UserDetails(datos.email, encode(datos.password), true, true, true, true, [RolPaciente]))
  {
    var u := Registro(us, roles, datos, encode, nuevoId).value;
    var us' := us + [u];
    forall j | 0 <= j < |us| ensures us'[j].email != datos.email {
    }
    assert us'[|us|].email == datos.email;
    assert UsuarioPorEmail(us', datos.email) == Some(|us|);
  }

  // ---------------------------------------------------------------------
  // actualizarPerfil
  // ---------------------------------------------------------------------

  /** The outcome of actualizarPerfil for the account holding the email:
      the seven profile fields are overwritten. */
  function ActualizacionPerfil(us: seq<Usuario>, email: string, perfil: Perfil): Result<Usuario>
  {
    match UsuarioPorEmail(us, email)
    case None => Err(UsuarioNoEncontrado)
    case Some(k) => Ok(us[k].(perfil := perfil))
  }

  /** actualizarPerfil fails exactly for an unknown email; otherwise the
      account keeps its key, email, password, role and enabled flag and only
      its profile changes. */
  lemma ActualizacionPerfilSii(us: seq<Usuario>, email: string, perfil: Perfil)
    ensures var r := ActualizacionPerfil(us, email, perfil);
            && (r.Err? <==> forall j :: 0 <= j < |us| ==> us[j].email != email)
            && (r.Err? ==> r.error == UsuarioNoEncontrado)
            && (r.Ok? ==>
                  var antes := BuscarPorEmail(us, email).value;
                  && r.value.perfil == perfil
                  && r.value.id == antes.id && r.value.email == antes.email && r.value.email == email
                  && r.value.password == antes.password && r.value.rol == antes.rol
                  && r.value.enabled == antes.enabled)
  {
  }

  /** actualizarPerfil, in place on the user table. */
  method ActualizarPerfil(db: Store, email: string, perfil: Perfil) returns (r: Result<Usuario>)
    modifies db`usuarios
    ensures r == ActualizacionPerfil(old(db.usuarios), email, perfil)
    ensures r.Ok? ==> db.usuarios == old(db.usuarios)[UsuarioPorEmail(old(db.usuarios), email).value := r.value]
    ensures r.Err? ==> db.usuarios == old(db.usuarios)
  {
    var k := UsuarioPorEmail(db.usuarios, email);
    if k.None? {
      return Err(UsuarioNoEncontrado);
    }
    var usuario := db.usuarios[k.value].(perfil := perfil);
    db.usuarios := db.usuarios[k.value := usuario];
    return Ok(usuario);
  }

  /** A profile update keeps the database consistent. */
  lemma ActualizacionPerfilConservaConsistencia(us: seq<Usuario>, es: seq<Especialidad>, ms: seq<Medico>,
                                                hs: seq<Horario>, cs: seq<Cita>, nextId: nat,
                                                email: string, perfil: Perfil)
    requires Consistente(us, es, ms, hs, cs, nextId)
    requires ActualizacionPerfil(us, email, perfil).Ok?
    ensures Consistente(us[UsuarioPorEmail(us, email).value := ActualizacionPerfil(us, email, perfil).value],
                        es, ms, hs, cs, nextId)
  {
    ActualizarUsuarioConsistente(us, UsuarioPorEmail(us, email).value, ActualizacionPerfil(us, email, perfil).value,
                                 es, ms, hs, cs, nextId);
  }

  // ---------------------------------------------------------------------
  // cambiarPassword
  // ---------------------------------------------------------------------

  /** The outcome of cambiarPassword for the account holding the email: the
      current password must match the stored hash; the new one is stored
      encoded. */
  function CambioPassword(us: seq<Usuario>, email: string, actual: string, nueva: string,
                          encode: Codificador, matches: Comparador): Result<Usuario>
  {
    match UsuarioPorEmail(us, email)
    case None => Err(UsuarioNoEncontrado)
    case Some(k) =>
      if !matches(actual, us[k].password) then Err(PasswordIncorrecta)
      else Ok(us[k].(password := encode(nueva)))
  }

  /** cambiarPassword fails for an unknown email, and for a current password
      that does not match the stored hash; on success only the hash changes,
      to the encoding of the new password. */
  lemma CambioPasswordSii(us: seq<Usuario>, email: string, actual: string, nueva: string,
                          encode: Codificador, matches: Comparador)
    ensures var r := CambioPassword(us, email, actual, nueva, encode, matches);
            && (r == Err(UsuarioNoEncontrado) <==> forall j :: 0 <= j < |us| ==> us[j].email != email)
            && (r == Err(PasswordIncorrecta) <==>
                  BuscarPorEmail(us, email).Ok? && !matches(actual, BuscarPorEmail(us, email).value.password))
            && (r.Ok? ==> r.value == BuscarPorEmail(us, email).value.(password := encode(nueva)))
  {
  }

  /** cambiarPassword, in place on the user table. */
  method CambiarPassword(db: Store, email: string, actual: string, nueva: string,
                         encode: Codificador, matches: Comparador) returns (r: Result<()>)
    modifies db`usuarios
    ensures var e := CambioPassword(old(db.usuarios), email, actual, nueva, encode, matches);
            && (r.Ok? <==> e.Ok?)
            && (r.Err? ==> r.error == e.error && db.usuarios == old(db.usuarios))
            && (r.Ok? ==> db.usuarios == old(db.usuarios)[UsuarioPorEmail(old(db.usuarios), email).value := e.value])
  {
    var k := UsuarioPorEmail(db.usuarios, email);
    if k.None? {
      return Err(UsuarioNoEncontrado);
    }
    var usuario := db.usuarios[k.value];
    if !matches(actual, usuario.password) {
      return Err(PasswordIncorrecta);
    }
    db.usuarios := db.usuarios[k.value := usuario.(password := encode(nueva))];
    return Ok(());
  }

  /** With an encoder whose encodings match their passwords, after a change
      the new password is accepted as the current one and the old hash is
      gone from the principal. */
  lemma CambioPasswordYLogin(us: seq<Usuario>, email: string, actual: string, nueva: string,
                             encode: Codificador, matches: Comparador)
    requires CodificadorCoherente(encode, matches)
    requires CambioPassword(us, email, actual, nueva, encode, matches).Ok?
    ensures var k := UsuarioPorEmail(us, email).value;
            var us' := us[k := CambioPassword(us, email, actual, nueva, encode, matches).value];
            && LoadUserByUsername(us', email).Ok?
            && LoadUserByUsername(us', email).value.password == encode(nueva)
            && CambioPassword(us', email, nueva, nueva, encode, matches).Ok?
  {
    var k := UsuarioPorEmail(us, email).value;
    var us' := us[k := CambioPassword(us, email, actual, nueva, encode, matches).value];
    assert us'[k].email == email;
    forall j | 0 <= j < k ensures us'[j].email != email {
    }
    assert UsuarioPorEmail(us', email) == Some(k);
  }

  /** A password change keeps the database consistent. */
  lemma CambioPasswordConservaConsistencia(us: seq<Usuario>, es: seq<Especialidad>, ms: seq<Medico>,
                                           hs: seq<Horario>, cs: seq<Cita>, nextId: nat,
                                           email: string, actual: string, nueva: string,
                                           encode: Codificador, matches: Comparador)
    requires Consistente(us, es, ms, hs, cs, nextId)
    requires CambioPassword(us, email, actual, nueva, encode, matches).Ok?
    ensures Consistente(us[UsuarioPorEmail(us, email).value := CambioPassword(us, email, actual, nueva, encode, matches).value],
                        es, ms, hs, cs, nextId)
  {
    ActualizarUsuarioConsistente(us, UsuarioPorEmail(us, email).value,
                                 CambioPassword(us, email, actual, nueva, encode, matches).value,
                                 es, ms, hs, cs, nextId);
  }
}
