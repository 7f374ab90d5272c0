/** The administrator's management of doctors: creating a doctor together
    with their account and base schedule, reading, updating and deleting
    one. */
module MedicoService {
  import opened Tiempo
  import opened Secuencias
  import opened Entidades
  import opened Repositorios
  import PacienteService

  // ---------------------------------------------------------------------
  // crearMedico and asignarHorarioBase
  // ---------------------------------------------------------------------

  /** The request body of crearMedico: the profile, the credentials and the specialty. */
  datatype DatosMedico = DatosMedico(perfil: Perfil, email: string, password: string, especialidadId: nat)

  const HoraEntrada: HoraDelDia := Hora(8, 0)
  const HoraSalida: HoraDelDia := Hora(17, 0)

  /** The base schedule of a doctor: one block per working day, Monday to
      Friday, from 08:00 to 17:00, saved in that order under consecutive
      keys from primerId. */
  function HorarioBase(medicoId: nat, primerId: nat): (r: seq<Horario>)
    ensures |r| == |DiasLaborables|
    ensures forall i :: 0 <= i < |r| ==>
              r[i] == Horario(primerId + i, medicoId, DiasLaborables[i], HoraEntrada, HoraSalida)
  {
    seq(|DiasLaborables|, i requires 0 <= i < |DiasLaborables| =>
          Horario(primerId + i, medicoId, DiasLaborables[i], HoraEntrada, HoraSalida))
  }

  /** What crearMedico writes: the account, the doctor row and the base schedule. */
  datatype Alta = Alta(usuario: Usuario, medico: Medico, horarios: seq<Horario>)

  /** The outcome of crearMedico. The checks come before any write: the
      email, the ROLE_MEDICO role, then the specialty. The account takes key
      nuevoId, the doctor row the next key, and the blocks the five after. */
  function CreacionMedico(us: seq<Usuario>, roles: set<string>, es: seq<Especialidad>, datos: DatosMedico,
                          encode: Codificador, nuevoId: nat): Result<Alta>
  {
    if UsuarioPorEmail(us, datos.email).Some? then Err(EmailEnUso)
    else if RolMedico !in roles then Err(RolNoEncontrado(RolMedico))
    else if EspecialidadPorId(es, datos.especialidadId).None? then Err(EspecialidadNoEncontrada)
    else
      var usuario := Usuario(nuevoId, datos.perfil, datos.email, encode(datos.password), RolMedico, true);
      var medico := Medico(nuevoId + 1, nuevoId, datos.especialidadId);
      Ok(Alta(usuario, medico, HorarioBase(medico.id, nuevoId + 2)))
  }

  /** crearMedico refuses a used email first, then a missing role, then an
      unknown specialty. On success the account holds the profile, the email
      and the encoded password, with role ROLE_MEDICO; the doctor row links
      that account and the requested specialty. */
  lemma CreacionMedicoSii(us: seq<Usuario>, roles: set<string>, es: seq<Especialidad>, datos: DatosMedico,
                          encode: Codificador, nuevoId: nat)
    ensures var r := CreacionMedico(us, roles, es, datos, encode, nuevoId);
            var emailLibre := forall u :: u in us ==> u.email != datos.email;
            && (r == Err(EmailEnUso) <==> !emailLibre)
            && (r == Err(RolNoEncontrado(RolMedico)) <==> emailLibre && RolMedico !in roles)
            && (r == Err(EspecialidadNoEncontrada) <==>
                  emailLibre && RolMedico in roles && forall e :: e in es ==> e.id != datos.especialidadId)
            && (r.Ok? ==>
                  && r.value.usuario.perfil == datos.perfil && r.value.usuario.email == datos.email
                  && r.value.usuario.password == encode(datos.password) && r.value.usuario.rol == RolMedico
                  && r.value.usuario.id == nuevoId && r.value.usuario.enabled
                  && r.value.medico.usuarioId == r.value.usuario.id
                  && r.value.medico.especialidadId == datos.especialidadId
                  && r.value.medico.id == nuevoId + 1
                  && r.value.horarios == HorarioBase(r.value.medico.id, nuevoId + 2))
  {
    if UsuarioPorEmail(us, datos.email).Some? {
      assert us[UsuarioPorEmail(us, datos.email).value] in us;
    } else {
      forall u | u in us ensures u.email != datos.email {
        var i :| 0 <= i < |us| && us[i] == u;
      }
    }
    if EspecialidadPorId(es, datos.especialidadId).Some? {
      assert es[EspecialidadPorId(es, datos.especialidadId).value] in es;
    } else {
      forall e | e in es ensures e.id != datos.especialidadId {
        var i :| 0 <= i < |es| && es[i] == e;
      }
    }
  }

  /** asignarHorarioBase: saves the five blocks one by one, each under the
      next generated key. */
  method AsignarHorarioBase(db: Store, medicoId: nat)
    modifies db`horarios, db`nextId
    ensures db.horarios == old(db.horarios) + HorarioBase(medicoId, old(db.nextId))
    ensures db.nextId == old(db.nextId) + |DiasLaborables|
  {
    ghost var base := HorarioBase(medicoId, db.nextId);
    for i := 0 to |DiasLaborables|
      invariant db.horarios == old(db.horarios) + base[..i]
      invariant db.nextId == old(db.nextId) + i
    {
      assert base[..i + 1] == base[..i] + [base[i]];
      db.horarios := db.horarios + [Horario(db.nextId, medicoId, DiasLaborables[i], HoraEntrada, HoraSalida)];
      db.nextId := db.nextId + 1;
    }
    assert base[..|DiasLaborables|] == base;
  }

  /** crearMedico: the checks, then the account, the doctor row and the base
      schedule, each saved under the next generated key. */
  method CrearMedico(db: Store, datos: DatosMedico, encode: Codificador) returns (r: Result<Medico>)
    modifies db`usuarios, db`medicos, db`horarios, db`nextId
    ensures var e := CreacionMedico(old(db.usuarios), db.roles, db.especialidades, datos, encode, old(db.nextId));
            && (r.Ok? <==> e.Ok?)
            && (r.Err? ==> r.error == e.error && db.usuarios == old(db.usuarios) && db.medicos == old(db.medicos)
                           && db.horarios == old(db.horarios) && db.nextId == old(db.nextId))
            && (r.Ok? ==> r.value == e.value.medico
                          && db.usuarios == old(db.usuarios) + [e.value.usuario]
                          && db.medicos == old(db.medicos) + [e.value.medico]
                          && db.horarios == old(db.horarios) + e.value.horarios
                          && db.nextId == old(db.nextId) + 2 + |DiasLaborables|)
  {
    if UsuarioPorEmail(db.usuarios, datos.email).Some? {
      return Err(EmailEnUso);
    }
    if RolMedico !in db.roles {
      return Err(RolNoEncontrado(RolMedico));
    }
    if EspecialidadPorId(db.especialidades, datos.especialidadId).None? {
      return Err(EspecialidadNoEncontrada);
    }
    var usuario := Usuario(db.nextId, datos.perfil, datos.email, encode(datos.password), RolMedico, true);
    db.usuarios := db.usuarios + [usuario];
    db.nextId := db.nextId + 1;
    var medico := Medico(db.nextId, usuario.id, datos.especialidadId);
    db.medicos := db.medicos + [medico];
    db.nextId := db.nextId + 1;
    AsignarHorarioBase(db, medico.id);
    return Ok(medico);
  }

  /** Creating a doctor keeps the database consistent: fresh keys, an unused
      email, and a doctor row whose account and specialty exist. */
  lemma CreacionMedicoConservaConsistencia(us: seq<Usuario>, roles: set<string>, es: seq<Especialidad>,
                                           ms: seq<Medico>, hs: seq<Horario>, cs: seq<Cita>, nextId: nat,
                                           datos: DatosMedico, encode: Codificador)
    requires Consistente(us, es, ms, hs, cs, nextId)
    requires CreacionMedico(us, roles, es, datos, encode, nextId).Ok?
    ensures var a := CreacionMedico(us, roles, es, datos, encode, nextId).value;
            Consistente(us + [a.usuario], es, ms + [a.medico], hs + a.horarios, cs, nextId + 2 + |DiasLaborables|)
  {
    var a := CreacionMedico(us, roles, es, datos, encode, nextId).value;
    AgregarUsuarioConsistente(us, a.usuario, es, ms, hs, cs, nextId);
    var us' := us + [a.usuario];
    assert us'[|us|].id == a.medico.usuarioId;
    AgregarMedicoConsistente(us', es, ms, hs, cs, nextId + 1, a.medico);
    assert (ms + [a.medico])[|ms|].id == a.medico.id;
    assert MedicoPorId(ms + [a.medico], a.medico.id).Some?;
    AgregarHorariosConsistente(us', es, ms + [a.medico], hs, cs, nextId + 2, a.horarios,
                               nextId + 2 + |DiasLaborables|);
  }

  /** The base schedule holds exactly one block on each working day, the
      one for that day, and none at the weekend. */
  lemma HorarioBasePorDia(medicoId: nat, primerId: nat, d: DiaSemana)
    ensures var base := HorarioBase(medicoId, primerId);
            && (forall k :: 0 <= k < |DiasLaborables| && DiasLaborables[k] == d ==>
                  HorariosDelDia(base, medicoId, d) == [base[k]])
            && (d !in DiasLaborables ==> HorariosDelDia(base, medicoId, d) == [])
  {
    var base := HorarioBase(medicoId, primerId);
    var p := HorarioDelMedicoEnDia(medicoId, d);
    if d in DiasLaborables {
      forall k | 0 <= k < |DiasLaborables| && DiasLaborables[k] == d
        ensures HorariosDelDia(base, medicoId, d) == [base[k]]
      {
        HorarioBaseEnDia(medicoId, primerId, k);
      }
    } else {
      forall i | 0 <= i < |base| ensures !p(base[i]) {
        assert base[i].dia == DiasLaborables[i];
      }
      FilterVacio(base, p);
    }
  }

  /** The block of the k-th working day is the only block of the base
      schedule on that day. */
  lemma HorarioBaseEnDia(medicoId: nat, primerId: nat, k: nat)
    requires k < |DiasLaborables|
    ensures var base := HorarioBase(medicoId, primerId);
            HorariosDelDia(base, medicoId, DiasLaborables[k]) == [base[k]]
  {
    var base := HorarioBase(medicoId, primerId);
    var p := HorarioDelMedicoEnDia(medicoId, DiasLaborables[k]);
    var antes, despues := base[..k], base[k + 1..];
    assert base == antes + [base[k]] + despues;
    forall i | 0 <= i < |antes| ensures !p(antes[i]) {
      assert antes[i] == base[i];
    }
    forall i | 0 <= i < |despues| ensures !p(despues[i]) {
      assert despues[i] == base[k + 1 + i];
    }
    FilterVacio(antes, p);
    FilterVacio(despues, p);
    FilterTodos([base[k]], p);
    FilterConcat(antes + [base[k]], despues, p);
    FilterConcat(antes, [base[k]], p);
  }

  // ---------------------------------------------------------------------
  // obtenerMedicoPorId
  // ---------------------------------------------------------------------

  /** What the doctor's response is built from: the doctor row and its account. */
  datatype FichaMedico = FichaMedico(medico: Medico, usuario: Usuario)

  /** obtenerMedicoPorId: empty for an unknown key, otherwise the doctor and
      the account it points at. */
  function ObtenerMedicoPorId(us: seq<Usuario>, ms: seq<Medico>, id: nat): (r: Option<FichaMedico>)
    requires MedicosConUsuario(us, ms)
    ensures r.None? <==> forall j :: 0 <= j < |ms| ==> ms[j].id != id
    ensures r.Some? ==> r.value.medico in ms && r.value.medico.id == id
                        && r.value.usuario in us && r.value.usuario.id == r.value.medico.usuarioId
  {
    match MedicoPorId(ms, id)
    case None => None
    case Some(i) =>
      assert ms[i] in ms;
      Some(FichaMedico(ms[i], us[UsuarioPorId(us, ms[i].usuarioId).value]))
  }

  /** The doctor just created is found by its key, with the account created
      with it. */
  lemma CrearYObtener(us: seq<Usuario>, roles: set<string>, es: seq<Especialidad>,
                      ms: seq<Medico>, hs: seq<Horario>, cs: seq<Cita>, nextId: nat,
                      datos: DatosMedico, encode: Codificador)
    requires Consistente(us, es, ms, hs, cs, nextId)
    requires CreacionMedico(us, roles, es, datos, encode, nextId).Ok?
    ensures var a := CreacionMedico(us, roles, es, datos, encode, nextId).value;
            MedicosConUsuario(us + [a.usuario], ms + [a.medico])
            && ObtenerMedicoPorId(us + [a.usuario], ms + [a.medico], a.medico.id) == Some(FichaMedico(a.medico, a.usuario))
  {
    var a := CreacionMedico(us, roles, es, datos, encode, nextId).value;
    CreacionMedicoConservaConsistencia(us, roles, es, ms, hs, cs, nextId, datos, encode);
    MedicoNuevoUnico(us, es, ms, hs, cs, nextId, a.usuario, a.medico);
  }

  /** In a consistent database, a doctor appended with key nextId + 1 for an
      account appended with key nextId is the one found under those keys. */
  lemma MedicoNuevoUnico(us: seq<Usuario>, es: seq<Especialidad>, ms: seq<Medico>,
                         hs: seq<Horario>, cs: seq<Cita>, nextId: nat, u: Usuario, m: Medico)
    requires Consistente(us, es, ms, hs, cs, nextId)
    requires u.id == nextId && m.id == nextId + 1 && m.usuarioId == nextId
    ensures MedicoPorId(ms + [m], m.id) == Some(|ms|)
    ensures UsuarioPorId(us + [u], m.usuarioId) == Some(|us|)
  {
    var ms' := ms + [m];
    var us' := us + [u];
    forall j | 0 <= j < |ms| ensures ms'[j].id != m.id {
      assert ms[j] in ms;
    }
    forall j | 0 <= j < |us| ensures us'[j].id != u.id {
      assert us[j] in us;
    }
    var p := MedicoPorId(ms', m.id);
    assert ms'[|ms|].id == m.id;
    var q := UsuarioPorId(us', u.id);
    assert us'[|us|].id == u.id;
  }

  /** A doctor just created, with no appointments yet, offers every half
      hour from 08:00 to 16:30 on a working day, eighteen slots, and nothing
      at the weekend. */
  lemma DisponibilidadMedicoNuevo(us: seq<Usuario>, roles: set<string>, es: seq<Especialidad>,
                                  ms: seq<Medico>, hs: seq<Horario>, cs: seq<Cita>, nextId: nat,
                                  datos: DatosMedico, encode: Codificador, fecha: Fecha)
    requires Consistente(us, es, ms, hs, cs, nextId)
    requires CreacionMedico(us, roles, es, datos, encode, nextId).Ok?
    ensures var a := CreacionMedico(us, roles, es, datos, encode, nextId).value;
            && MedicosConUsuario(us + [a.usuario], ms + [a.medico])
            && var r := PacienteService.Disponibilidad(us + [a.usuario], ms + [a.medico], hs + a.horarios, cs,
                                                       a.medico.id, fecha);
               && r.Ok?
               && (DiaSemanaDe(fecha) in DiasLaborables ==>
                     |r.value| == 18 && forall k :: 0 <= k < 18 ==> r.value[k] == HoraEntrada + DuracionCita * k)
               && (DiaSemanaDe(fecha) !in DiasLaborables ==> r.value == [])
  {
    var a := CreacionMedico(us, roles, es, datos, encode, nextId).value;
    CreacionMedicoConservaConsistencia(us, roles, es, ms, hs, cs, nextId, datos, encode);
    BloqueMedicoNuevo(us, es, ms, hs, cs, nextId, a.usuario, a.medico, fecha);
    forall i | 0 <= i < |cs| ensures !CitaDelMedicoEnFecha(a.medico.id, fecha)(cs[i]) {
      assert cs[i] in cs;
    }
    FilterVacio(cs, CitaDelMedicoEnFecha(a.medico.id, fecha));
    assert PacienteService.HorasAgendadas([]) == [];
    SlotsSinCitasBase();
  }

  /** The block a doctor just added, with a new enabled account and the
      base schedule, works on a date: the base block of a working day, and
      none at the weekend. */
  lemma BloqueMedicoNuevo(us: seq<Usuario>, es: seq<Especialidad>, ms: seq<Medico>, hs: seq<Horario>,
                          cs: seq<Cita>, nextId: nat, u: Usuario, m: Medico, fecha: Fecha)
    requires Consistente(us, es, ms, hs, cs, nextId)
    requires u.id == nextId && u.enabled && m.id == nextId + 1 && m.usuarioId == nextId
    ensures MedicosConUsuario(us + [u], ms + [m])
    ensures var r := PacienteService.BloqueDelDia(us + [u], ms + [m], hs + HorarioBase(m.id, nextId + 2), m.id, fecha);
            && r.Ok?
            && (r.value.Some? <==> DiaSemanaDe(fecha) in DiasLaborables)
            && (r.value.Some? ==> r.value.value.inicio == HoraEntrada && r.value.value.fin == HoraSalida)
  {
    var d := DiaSemanaDe(fecha);
    var base := HorarioBase(m.id, nextId + 2);
    MedicosConUsuarioTrasAlta(us, ms, u, m);
    MedicoNuevoUnico(us, es, ms, hs, cs, nextId, u, m);
    HorariosDelDiaTrasAlta(hs, base, m.id, d);
    var bloques := HorariosDelDia(hs + base, m.id, d);
    BloquesBasePorDia(m.id, nextId + 2, d);
    if |bloques| == 1 {
      assert bloques[0] in base;
    }
  }

  /** Blocks added for a doctor who had none are all the doctor's blocks
      on any weekday. */
  lemma HorariosDelDiaTrasAlta(hs: seq<Horario>, nuevos: seq<Horario>, medicoId: nat, d: DiaSemana)
    requires forall h :: h in hs ==> h.medicoId != medicoId
    ensures HorariosDelDia(hs + nuevos, medicoId, d) == HorariosDelDia(nuevos, medicoId, d)
  {
    var p := HorarioDelMedicoEnDia(medicoId, d);
    forall i | 0 <= i < |hs| ensures !p(hs[i]) {
      assert hs[i] in hs;
    }
    FilterVacio(hs, p);
    FilterConcat(hs, nuevos, p);
  }

  /** The base schedule has one block on a working day and none otherwise. */
  lemma BloquesBasePorDia(medicoId: nat, primerId: nat, d: DiaSemana)
    ensures |HorariosDelDia(HorarioBase(medicoId, primerId), medicoId, d)| == if d in DiasLaborables then 1 else 0
  {
    HorarioBasePorDia(medicoId, primerId, d);
    if d in DiasLaborables {
      var k :| 0 <= k < |DiasLaborables| && DiasLaborables[k] == d;
    }
  }

  /** The free grid of an empty 08:00 to 17:00 block. */
  lemma SlotsSinCitasBase()
    ensures var r := PacienteService.SlotsLibres(HoraEntrada, HoraSalida, []);
            |r| == 18 && forall k :: 0 <= k < 18 ==> r[k] == HoraEntrada + DuracionCita * k
  {
    PacienteService.SlotsSinCitas(HoraEntrada, HoraSalida);
  }

  // ---------------------------------------------------------------------
  // actualizarMedico
  // ---------------------------------------------------------------------

  /** The request body of actualizarMedico: the seven profile fields and the specialty. */
  datatype DatosActualizacionMedico = DatosActualizacionMedico(perfil: Perfil, especialidadId: nat)

  /** The outcome of actualizarMedico: the rewritten doctor and account.
      The specialty is looked up only when its key changes. The account's
      fields are set before that lookup can fail; the transaction then rolls
      back, so a failure writes nothing. */
  function ActualizacionMedico(us: seq<Usuario>, es: seq<Especialidad>, ms: seq<Medico>, id: nat,
                               datos: DatosActualizacionMedico): Result<FichaMedico>
    requires MedicosConUsuario(us, ms)
  {
    match MedicoPorId(ms, id)
    case None => Err(MedicoNoEncontrado)
    case Some(i) =>
      assert ms[i] in ms;
      var usuario := us[UsuarioPorId(us, ms[i].usuarioId).value];
      if ms[i].especialidadId != datos.especialidadId && EspecialidadPorId(es, datos.especialidadId).None? then
        Err(EspecialidadNoEncontrada)
      else
        Ok(FichaMedico(ms[i].(especialidadId := datos.especialidadId), usuario.(perfil := datos.perfil)))
  }

  /** actualizarMedico fails for an unknown doctor, and for a new specialty
      that does not exist; keeping the specialty never looks it up. On
      success the account gets the new profile and keeps its key, email,
      password, role and enabled flag, and the doctor row keeps its key and
      account and gets the requested specialty. */
  lemma ActualizacionMedicoSii(us: seq<Usuario>, es: seq<Especialidad>, ms: seq<Medico>, id: nat,
                               datos: DatosActualizacionMedico)
    requires MedicosConUsuario(us, ms)
    ensures var r := ActualizacionMedico(us, es, ms, id, datos);
            && (r == Err(MedicoNoEncontrado) <==> forall j :: 0 <= j < |ms| ==> ms[j].id != id)
            && (r == Err(EspecialidadNoEncontrada) <==>
                  && MedicoPorId(ms, id).Some?
                  && ms[MedicoPorId(ms, id).value].especialidadId != datos.especialidadId
                  && forall j :: 0 <= j < |es| ==> es[j].id != datos.especialidadId)
            && (r.Ok? ==>
                  var antes := ObtenerMedicoPorId(us, ms, id).value;
                  && r.value.medico == antes.medico.(especialidadId := datos.especialidadId)
                  && r.value.usuario.perfil == datos.perfil
                  && r.value.usuario.id == antes.usuario.id
                  && r.value.usuario.email == antes.usuario.email
                  && r.value.usuario.password == antes.usuario.password
                  && r.value.usuario.rol == antes.usuario.rol
                  && r.value.usuario.enabled == antes.usuario.enabled
                  && EspecialidadPorId(es, r.value.medico.especialidadId).Some?
                     == (antes.medico.especialidadId != datos.especialidadId
                         || EspecialidadPorId(es, antes.medico.especialidadId).Some?))
  {
  }

  /** actualizarMedico, in place on the account and doctor tables. */
  method ActualizarMedico(db: Store, id: nat, datos: DatosActualizacionMedico) returns (r: Result<FichaMedico>)
    requires MedicosConUsuario(db.usuarios, db.medicos)
    modifies db`usuarios, db`medicos
    ensures r == ActualizacionMedico(old(db.usuarios), db.especialidades, old(db.medicos), id, datos)
    ensures r.Ok? ==>
              var i := MedicoPorId(old(db.medicos), id).value;
              && db.usuarios == old(db.usuarios)[UsuarioPorId(old(db.usuarios), old(db.medicos)[i].usuarioId).value
                                                 := r.value.usuario]
              && db.medicos == old(db.medicos)[i := r.value.medico]
    ensures r.Err? ==> db.usuarios == old(db.usuarios) && db.medicos == old(db.medicos)
  {
    var i := MedicoPorId(db.medicos, id);
    if i.None? {
      return Err(MedicoNoEncontrado);
    }
    var medico := db.medicos[i.value];
    assert medico in db.medicos;
    var k := UsuarioPorId(db.usuarios, medico.usuarioId).value;
    var usuario := db.usuarios[k].(perfil := datos.perfil);
    if medico.especialidadId != datos.especialidadId {
      if EspecialidadPorId(db.especialidades, datos.especialidadId).None? {
        return Err(EspecialidadNoEncontrada);
      }
      medico := medico.(especialidadId := datos.especialidadId);
    }
    db.usuarios := db.usuarios[k := usuario];
    db.medicos := db.medicos[i.value := medico];
    return Ok(FichaMedico(medico, usuario));
  }

  /** A successful update keeps the database consistent. */
  lemma ActualizacionMedicoConservaConsistencia(us: seq<Usuario>, es: seq<Especialidad>, ms: seq<Medico>,
                                                hs: seq<Horario>, cs: seq<Cita>, nextId: nat,
                                                id: nat, datos: DatosActualizacionMedico)
    requires Consistente(us, es, ms, hs, cs, nextId)
    requires ActualizacionMedico(us, es, ms, id, datos).Ok?
    ensures var f := ActualizacionMedico(us, es, ms, id, datos).value;
            var i := MedicoPorId(ms, id).value;
            Consistente(us[UsuarioPorId(us, ms[i].usuarioId).value := f.usuario], es, ms[i := f.medico], hs, cs, nextId)
  {
    var f := ActualizacionMedico(us, es, ms, id, datos).value;
    var i := MedicoPorId(ms, id).value;
    assert ms[i] in ms;
    var k := UsuarioPorId(us, ms[i].usuarioId).value;
    assert EspecialidadPorId(es, f.medico.especialidadId).Some?;
    ActualizarMedicoConsistente(us, es, ms, hs, cs, nextId, i, f.medico);
    ActualizarUsuarioConsistente(us, k, f.usuario, es, ms[i := f.medico], hs, cs, nextId);
  }

  // ---------------------------------------------------------------------
  // eliminarMedico
  // ---------------------------------------------------------------------

  /** The doctor and block tables after a deletion. */
  datatype Restantes = Restantes(medicos: seq<Medico>, horarios: seq<Horario>)

  /** The outcome of eliminarMedico. An unknown key deletes nothing.
      Otherwise the doctor row goes, and its blocks with it (the doctor's
      block list cascades); an appointment still pointing at the doctor makes
      the database refuse the delete. The account stays. */
  function EliminacionMedico(ms: seq<Medico>, hs: seq<Horario>, cs: seq<Cita>, id: nat): Result<Restantes>
  {
    if MedicoPorId(ms, id).None? then Ok(Restantes(ms, hs))
    else if Find(cs, CitaDelMedico(id)).Some? then Err(IntegridadReferencial)
    else Ok(Restantes(Filter(ms, MedicoSinId(id)), Filter(hs, HorarioDeOtroMedico(id))))
  }

  /** eliminarMedico is a no-op for an unknown key; it fails exactly when the
      doctor exists and has appointments; on success no row of that doctor
      and none of its blocks remain, and every other doctor and block does. */
  lemma EliminacionMedicoSii(ms: seq<Medico>, hs: seq<Horario>, cs: seq<Cita>, id: nat)
    ensures var r := EliminacionMedico(ms, hs, cs, id);
            && ((forall j :: 0 <= j < |ms| ==> ms[j].id != id) ==> r == Ok(Restantes(ms, hs)))
            && (r.Err? <==> (exists j :: 0 <= j < |ms| && ms[j].id == id)
                            && exists j :: 0 <= j < |cs| && cs[j].medicoId == id)
            && (r.Err? ==> r.error == IntegridadReferencial)
            && (r.Ok? && (exists j :: 0 <= j < |ms| && ms[j].id == id) ==>
                  && (forall m :: m in r.value.medicos <==> m in ms && m.id != id)
                  && (forall h :: h in r.value.horarios <==> h in hs && h.medicoId != id))
  {
    var r := EliminacionMedico(ms, hs, cs, id);
    if exists j :: 0 <= j < |cs| && cs[j].medicoId == id {
      var j :| 0 <= j < |cs| && cs[j].medicoId == id;
      assert CitaDelMedico(id)(cs[j]);
    }
    if r.Ok? && MedicoPorId(ms, id).Some? {
      forall m | m in ms && m.id != id ensures m in r.value.medicos {
        var j :| 0 <= j < |ms| && ms[j] == m;
        assert MedicoSinId(id)(ms[j]);
      }
      forall h | h in hs && h.medicoId != id ensures h in r.value.horarios {
        var j :| 0 <= j < |hs| && hs[j] == h;
        assert HorarioDeOtroMedico(id)(hs[j]);
      }
      forall m | m in r.value.medicos ensures m in ms && m.id != id {
        var j :| 0 <= j < |r.value.medicos| && r.value.medicos[j] == m;
      }
      forall h | h in r.value.horarios ensures h in hs && h.medicoId != id {
        var j :| 0 <= j < |r.value.horarios| && r.value.horarios[j] == h;
      }
    }
  }

  /** eliminarMedico, on the doctor and block tables. */
  method EliminarMedico(db: Store, id: nat) returns (r: Result<()>)
    modifies db`medicos, db`horarios
    ensures var e := EliminacionMedico(old(db.medicos), old(db.horarios), db.citas, id);
            && (r.Ok? <==> e.Ok?)
            && (r.Err? ==> r.error == e.error && db.medicos == old(db.medicos) && db.horarios == old(db.horarios))
            && (r.Ok? ==> db.medicos == e.value.medicos && db.horarios == e.value.horarios)
  {
    if MedicoPorId(db.medicos, id).None? {
      return Ok(());
    }
    if Find(db.citas, CitaDelMedico(id)).Some? {
      return Err(IntegridadReferencial);
    }
    db.horarios := Filter(db.horarios, HorarioDeOtroMedico(id));
    db.medicos := Filter(db.medicos, MedicoSinId(id));
    return Ok(());
  }

  /** Once deleted, the doctor is no longer found. */
  lemma EliminarYObtener(us: seq<Usuario>, ms: seq<Medico>, hs: seq<Horario>, cs: seq<Cita>, id: nat)
    requires MedicosConUsuario(us, ms)
    requires EliminacionMedico(ms, hs, cs, id).Ok?
    ensures var rest := EliminacionMedico(ms, hs, cs, id).value;
            MedicosConUsuario(us, rest.medicos) && ObtenerMedicoPorId(us, rest.medicos, id).None?
  {
    var rest := EliminacionMedico(ms, hs, cs, id).value;
    EliminacionMedicoSii(ms, hs, cs, id);
    if MedicoPorId(ms, id).None? {
      assert rest.medicos == ms;
    } else {
      forall j | 0 <= j < |rest.medicos| ensures rest.medicos[j].id != id {
        assert rest.medicos[j] in rest.medicos;
      }
    }
  }

  /** A deletion keeps the database consistent: only doctors without
      appointments go, together with their blocks. */
  lemma EliminacionMedicoConservaConsistencia(us: seq<Usuario>, es: seq<Especialidad>, ms: seq<Medico>,
                                              hs: seq<Horario>, cs: seq<Cita>, nextId: nat, id: nat)
    requires Consistente(us, es, ms, hs, cs, nextId)
    requires EliminacionMedico(ms, hs, cs, id).Ok?
    ensures var rest := EliminacionMedico(ms, hs, cs, id).value;
            Consistente(us, es, rest.medicos, rest.horarios, cs, nextId)
  {
    var rest := EliminacionMedico(ms, hs, cs, id).value;
    EliminacionMedicoSii(ms, hs, cs, id);
  }
}
