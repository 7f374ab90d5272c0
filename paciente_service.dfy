/** The patient-facing appointment engine: the free slots of a doctor on a
    date, booking one of them, deactivating a patient together with their
    future appointments, and the administrator's profile update. */
module PacienteService {
  import opened Tiempo
  import opened Secuencias
  import opened Entidades
  import opened Repositorios

  // ---------------------------------------------------------------------
  // Availability
  // ---------------------------------------------------------------------

  /** The start times of the AGENDADA appointments among cs, in order. */
  function HorasAgendadas(cs: seq<Cita>): seq<HoraDelDia>
  {
    if cs == [] then []
    else (if cs[0].estado == Agendada then [HoraDe(cs[0].inicio)] else []) + HorasAgendadas(cs[1..])
  }

  /** A time is among them exactly when one of the AGENDADA appointments starts at it. */
  lemma {:induction false} HorasAgendadasSii(cs: seq<Cita>, t: int)
    ensures t in HorasAgendadas(cs) <==> exists i :: 0 <= i < |cs| && cs[i].estado == Agendada && HoraDe(cs[i].inicio) == t
  {
    if cs != [] {
      HorasAgendadasSii(cs[1..], t);
      if exists i :: 1 <= i < |cs| && cs[i].estado == Agendada && HoraDe(cs[i].inicio) == t {
        var i :| 1 <= i < |cs| && cs[i].estado == Agendada && HoraDe(cs[i].inicio) == t;
        assert cs[1..][i - 1] == cs[i];
      }
    }
  }

  /** The grid desde, desde + 30, ... strictly before fin, leaving out the
      occupied times. The grid position is an unbounded integer, so it never
      wraps around midnight. */
  function SlotsLibres(desde: int, fin: HoraDelDia, ocupadas: seq<HoraDelDia>): seq<HoraDelDia>
    requires 0 <= desde
    decreases fin - desde
  {
    if desde >= fin then []
    else
      var h: HoraDelDia := desde;
      (if h in ocupadas then [] else [h]) + SlotsLibres(desde + DuracionCita, fin, ocupadas)
  }

  /** A time is offered exactly when it is on the 30-minute grid of the
      block and is not the start of an occupied slot. */
  lemma {:induction false} SlotsLibresMiembro(desde: int, fin: HoraDelDia, ocupadas: seq<HoraDelDia>, t: int)
    requires 0 <= desde
    ensures t in SlotsLibres(desde, fin, ocupadas) <==>
            desde <= t < fin && (t - desde) % DuracionCita == 0 && t !in ocupadas
    decreases fin - desde
  {
    if desde < fin {
      var h: HoraDelDia := desde;
      var resto := SlotsLibres(desde + DuracionCita, fin, ocupadas);
      assert SlotsLibres(desde, fin, ocupadas) == (if h in ocupadas then [] else [h]) + resto;
      SlotsLibresMiembro(desde + DuracionCita, fin, ocupadas, t);
      if t > desde {
        MismoRestoTrasUnPaso(t - desde);
        if (t - desde) % DuracionCita == 0 {
          assert t >= desde + DuracionCita;
        }
      }
    }
  }

  lemma MismoRestoTrasUnPaso(x: int)
    ensures (x - DuracionCita) % DuracionCita == x % DuracionCita
  {
  }

  predicate Creciente(s: seq<HoraDelDia>) {
    forall i, j :: 0 <= i < j < |s| ==> s[i] < s[j]
  }

  /** The offered times are strictly ascending. */
  lemma {:induction false} SlotsLibresCrecientes(desde: int, fin: HoraDelDia, ocupadas: seq<HoraDelDia>)
    requires 0 <= desde
    ensures Creciente(SlotsLibres(desde, fin, ocupadas))
    decreases fin - desde
  {
    if desde < fin {
      var resto := SlotsLibres(desde + DuracionCita, fin, ocupadas);
      SlotsLibresCrecientes(desde + DuracionCita, fin, ocupadas);
      var r := SlotsLibres(desde, fin, ocupadas);
      if desde !in ocupadas {
        assert r == [desde] + resto;
        forall i, j | 0 <= i < j < |r| ensures r[i] < r[j] {
          assert r[j] == resto[j - 1];
          if i == 0 {
            SlotsLibresMiembro(desde + DuracionCita, fin, ocupadas, resto[j - 1]);
          } else {
            assert r[i] == resto[i - 1];
          }
        }
      } else {
        assert r == resto;
      }
    }
  }

  /** With nothing booked, the offer is the whole grid: the k-th slot is
      desde + 30k, and there is one slot per started half hour of the block. */
  lemma {:induction false} SlotsSinCitas(desde: int, fin: HoraDelDia)
    requires 0 <= desde
    ensures var r := SlotsLibres(desde, fin, []);
            && |r| == (if desde < fin then (fin - desde + DuracionCita - 1) / DuracionCita else 0)
            && forall k :: 0 <= k < |r| ==> r[k] == desde + DuracionCita * k
    decreases fin - desde
  {
    if desde < fin {
      SlotsSinCitas(desde + DuracionCita, fin);
    }
  }

  /** The working block calcularDisponibilidad walks for a doctor on a
      date: none for a disabled doctor or a weekday without a block. The
      account of every doctor exists (the foreign key of the doctor table). */
  function BloqueDelDia(us: seq<Usuario>, ms: seq<Medico>, hs: seq<Horario>, medicoId: nat, fecha: Fecha)
    : Result<Option<Horario>>
    requires MedicosConUsuario(us, ms)
  {
    match MedicoPorId(ms, medicoId)
    case None => Err(MedicoNoEncontrado)
    case Some(i) =>
      if !us[UsuarioPorId(us, ms[i].usuarioId).value].enabled then Ok(None)
      else
        var bloques := HorariosDelDia(hs, medicoId, DiaSemanaDe(fecha));
        if |bloques| == 0 then Ok(None)
        else if |bloques| > 1 then Err(ResultadoNoUnico)
        else Ok(Some(bloques[0]))
  }

  /** The block found for a date is one of the doctor's blocks for that
      weekday, and the only one. */
  lemma BloqueDelDiaUnico(us: seq<Usuario>, ms: seq<Medico>, hs: seq<Horario>, medicoId: nat, fecha: Fecha)
    requires MedicosConUsuario(us, ms)
    ensures var r := BloqueDelDia(us, ms, hs, medicoId, fecha);
            r.Ok? && r.value.Some? ==>
              && r.value.value in hs
              && r.value.value.medicoId == medicoId
              && r.value.value.dia == DiaSemanaDe(fecha)
              && forall h :: h in hs && h.medicoId == medicoId && h.dia == DiaSemanaDe(fecha) ==> h == r.value.value
  {
    HorarioUnicoDelDia(hs, medicoId, DiaSemanaDe(fecha));
  }

  /** When a doctor has a single block for a weekday, every block of that
      doctor and weekday is that one. */
  lemma HorarioUnicoDelDia(hs: seq<Horario>, medicoId: nat, dia: DiaSemana)
    ensures var bloques := HorariosDelDia(hs, medicoId, dia);
            |bloques| == 1 ==> forall h :: h in hs && h.medicoId == medicoId && h.dia == dia ==> h == bloques[0]
  {
    var bloques := HorariosDelDia(hs, medicoId, dia);
    if |bloques| == 1 {
      forall h | h in hs && h.medicoId == medicoId && h.dia == dia
        ensures h == bloques[0]
      {
        var j :| 0 <= j < |hs| && hs[j] == h;
      }
    }
  }

  /** The source's result for a doctor on a date, on the tables as they are:
      the grid of the day's block without the booked times. */
  function Disponibilidad(us: seq<Usuario>, ms: seq<Medico>, hs: seq<Horario>, cs: seq<Cita>,
                          medicoId: nat, fecha: Fecha): Result<seq<HoraDelDia>>
    requires MedicosConUsuario(us, ms)
  {
    match BloqueDelDia(us, ms, hs, medicoId, fecha)
    case Err(e) => Err(e)
    case Ok(None) => Ok([])
    case Ok(Some(b)) => Ok(SlotsLibres(b.inicio, b.fin, HorasAgendadas(CitasDelMedicoEnFecha(cs, medicoId, fecha))))
  }

  /** True when t is the start of an AGENDADA appointment of the doctor on that date. */
  ghost predicate HoraReservada(cs: seq<Cita>, medicoId: nat, fecha: Fecha, t: int) {
    exists c :: c in cs && c.medicoId == medicoId && FechaDe(c.inicio) == fecha
                && c.estado == Agendada && HoraDe(c.inicio) == t
  }

  /** The occupied times are exactly the starts of that day's AGENDADA
      appointments of the doctor; appointments in other states occupy nothing. */
  lemma OcupadasSii(cs: seq<Cita>, medicoId: nat, fecha: Fecha, t: int)
    ensures t in HorasAgendadas(CitasDelMedicoEnFecha(cs, medicoId, fecha)) <==> HoraReservada(cs, medicoId, fecha, t)
  {
    var delDia := CitasDelMedicoEnFecha(cs, medicoId, fecha);
    HorasAgendadasSii(delDia, t);
    if HoraReservada(cs, medicoId, fecha, t) {
      var c :| c in cs && c.medicoId == medicoId && FechaDe(c.inicio) == fecha
               && c.estado == Agendada && HoraDe(c.inicio) == t;
      var i :| 0 <= i < |cs| && cs[i] == c;
      assert c in delDia;
      var j :| 0 <= j < |delDia| && delDia[j] == c;
    }
    if t in HorasAgendadas(delDia) {
      var j :| 0 <= j < |delDia| && delDia[j].estado == Agendada && HoraDe(delDia[j].inicio) == t;
      assert delDia[j] in cs;
    }
  }

  /** When a doctor offers nothing on a date, or fails: an unknown doctor
      fails; a disabled doctor, or a weekday without a working block, offers
      nothing; the only other failure is a weekday with several blocks; and
      a non-empty offer comes from the single block of the day. */
  lemma DisponibilidadCasos(us: seq<Usuario>, ms: seq<Medico>, hs: seq<Horario>, cs: seq<Cita>,
                            medicoId: nat, fecha: Fecha)
    requires MedicosConUsuario(us, ms)
    ensures var r := Disponibilidad(us, ms, hs, cs, medicoId, fecha);
            && (r == Err(MedicoNoEncontrado) <==> forall m :: m in ms ==> m.id != medicoId)
            && (r.Err? ==> r.error == MedicoNoEncontrado || r.error == ResultadoNoUnico)
            && ((MedicoPorId(ms, medicoId).Some?
                 && !us[UsuarioPorId(us, ms[MedicoPorId(ms, medicoId).value].usuarioId).value].enabled) ==> r == Ok([]))
            && ((forall h :: h in hs ==> h.medicoId != medicoId || h.dia != DiaSemanaDe(fecha)) && r.Ok? ==> r == Ok([]))
            && (r.Ok? && r.value != [] ==> BloqueDelDia(us, ms, hs, medicoId, fecha).Ok?
                                           && BloqueDelDia(us, ms, hs, medicoId, fecha).value.Some?)
  {
    if MedicoPorId(ms, medicoId).None? {
      forall m | m in ms ensures m.id != medicoId {
        var j :| 0 <= j < |ms| && ms[j] == m;
      }
    }
  }

  /** When a doctor has a block for the date's weekday, the offer is
      exactly the grid times of that block that no AGENDADA appointment of
      the doctor on that date starts at. */
  lemma DisponibilidadSii(us: seq<Usuario>, ms: seq<Medico>, hs: seq<Horario>, cs: seq<Cita>,
                          medicoId: nat, fecha: Fecha, b: Horario, t: int)
    requires MedicosConUsuario(us, ms)
    requires BloqueDelDia(us, ms, hs, medicoId, fecha) == Ok(Some(b))
    ensures Disponibilidad(us, ms, hs, cs, medicoId, fecha).Ok?
    ensures t in Disponibilidad(us, ms, hs, cs, medicoId, fecha).value <==>
              b.inicio <= t < b.fin && (t - b.inicio) % DuracionCita == 0 && !HoraReservada(cs, medicoId, fecha, t)
  {
    SlotsDelBloqueSii(b.inicio, b.fin, cs, medicoId, fecha, t);
  }

  /** The free grid times of one block: the grid times inside it that no
      AGENDADA appointment of the doctor on that date starts at. */
  lemma SlotsDelBloqueSii(inicio: HoraDelDia, fin: HoraDelDia, cs: seq<Cita>, medicoId: nat, fecha: Fecha, t: int)
    ensures t in SlotsLibres(inicio, fin, HorasAgendadas(CitasDelMedicoEnFecha(cs, medicoId, fecha))) <==>
              inicio <= t < fin && (t - inicio) % DuracionCita == 0 && !HoraReservada(cs, medicoId, fecha, t)
  {
    var ocupadas := HorasAgendadas(CitasDelMedicoEnFecha(cs, medicoId, fecha));
    SlotsLibresMiembro(inicio, fin, ocupadas, t);
    OcupadasSii(cs, medicoId, fecha, t);
  }

  /** The walk of calcularDisponibilidad over one working block: from its
      start in 30-minute steps while before its end, keeping the times not
      booked. */
  method RecorrerBloque(inicio: HoraDelDia, fin: HoraDelDia, ocupadas: seq<HoraDelDia>) returns (slots: seq<HoraDelDia>)
    ensures slots == SlotsLibres(inicio, fin, ocupadas)
  {
    slots := [];
    var hora: int := inicio;
    while hora < fin
      invariant inicio <= hora
      invariant slots + SlotsLibres(hora, fin, ocupadas) == SlotsLibres(inicio, fin, ocupadas)
      decreases fin - hora
    {
      var resto := SlotsLibres(hora + DuracionCita, fin, ocupadas);
      if hora !in ocupadas {
        assert slots + ([hora] + resto) == (slots + [hora]) + resto;
        slots := slots + [hora];
      } else {
        assert [] + resto == resto;
      }
      hora := hora + DuracionCita;
    }
  }

  /** The free slots of a doctor on a date (calcularDisponibilidad). */
  method CalcularDisponibilidad(db: Store, medicoId: nat, fecha: Fecha) returns (r: Result<seq<HoraDelDia>>)
    requires MedicosConUsuario(db.usuarios, db.medicos)
    ensures r == Disponibilidad(db.usuarios, db.medicos, db.horarios, db.citas, medicoId, fecha)
  {
    var im := MedicoPorId(db.medicos, medicoId);
    if im.None? {
      return Err(MedicoNoEncontrado);
    }
    var medico := db.medicos[im.value];
    var usuario := db.usuarios[UsuarioPorId(db.usuarios, medico.usuarioId).value];
    if !usuario.enabled {
      return Ok([]);
    }
    var bloques := HorariosDelDia(db.horarios, medicoId, DiaSemanaDe(fecha));
    if |bloques| == 0 {
      return Ok([]);
    }
    if |bloques| > 1 {
      return Err(ResultadoNoUnico);
    }
    var horario := bloques[0];
    var ocupadas := HorasAgendadas(CitasDelMedicoEnFecha(db.citas, medicoId, fecha));
    var slots := RecorrerBloque(horario.inicio, horario.fin, ocupadas);
    return Ok(slots);
  }

  // ---------------------------------------------------------------------
  // The midnight wrap of the source's loop
  // ---------------------------------------------------------------------

  /** The source's loop variable after k turns: each turn is
      `horaActual.plusMinutes(30)`, which wraps around midnight. */
  function HoraTrasVueltas(inicio: HoraDelDia, k: nat): HoraDelDia {
    if k == 0 then inicio else MasMinutos(HoraTrasVueltas(inicio, k - 1), DuracionCita)
  }

  /** A loop variable starting on the hour or half hour stays on the
      half-hour grid whatever the number of turns, wrap included. */
  lemma {:induction false} HoraTrasVueltasAlineada(inicio: HoraDelDia, k: nat)
    requires inicio % DuracionCita == 0
    ensures HoraTrasVueltas(inicio, k) % DuracionCita == 0
  {
    if k > 0 {
      HoraTrasVueltasAlineada(inicio, k - 1);
    }
  }

  /** As written, the loop of calcularDisponibilidad never ends for a block
      that starts on the hour or half hour and ends after 23:30 (for example
      20:00 to 23:59): its guard `horaActual < horaFin` still holds after
      every number of turns. */
  lemma BucleOriginalNoTermina(inicio: HoraDelDia, fin: HoraDelDia, k: nat)
    requires inicio % DuracionCita == 0 && fin > Hora(23, 30)
    ensures HoraTrasVueltas(inicio, k) < fin
  {
    HoraTrasVueltasAlineada(inicio, k);
  }

  /** Where the source's loop does end (the grid never passes 23:30), its
      loop variable is the unbounded grid position the model walks. */
  lemma {:induction false} SinVueltaHastaMedianoche(inicio: HoraDelDia, k: nat)
    requires inicio + DuracionCita * k < MinutosPorDia
    ensures HoraTrasVueltas(inicio, k) == inicio + DuracionCita * k
  {
    if k > 0 {
      SinVueltaHastaMedianoche(inicio, k - 1);
    }
  }

  // ---------------------------------------------------------------------
  // Booking
  // ---------------------------------------------------------------------

  /** The request body of a booking: the doctor and the wanted start. */
  datatype DatosAgendamiento = DatosAgendamiento(medicoId: nat, fechaHoraInicio: Instante)

  /** The repository query `tieneCitaActivaConEspecialidad(pacienteId,
      especialidadId, ahora)`, whose text is not part of this model, as a
      function of the tables it can read. */
  type ConsultaCitaActiva = (seq<Cita>, seq<Medico>, nat, nat, Instante) -> bool

  /** One reading of that query: the patient holds an AGENDADA appointment,
      starting after ahora, with a doctor of that specialty. */
  predicate CitaActivaEnEspecialidad(cs: seq<Cita>, ms: seq<Medico>, pacienteId: nat,
                                     especialidadId: nat, ahora: Instante)
  {
    exists c :: c in cs && c.pacienteId == pacienteId && c.estado == Agendada && c.inicio > ahora
                && MedicoPorId(ms, c.medicoId).Some?
                && ms[MedicoPorId(ms, c.medicoId).value].especialidadId == especialidadId
  }

  /** The source's overlap test of the new half hour against an existing
      appointment: only AGENDADA appointments count, and the intervals are
      open at both ends. */
  predicate SeSuperpone(c: Cita, inicio: Instante, fin: Instante) {
    c.estado == Agendada && inicio < c.fin && fin > c.inicio
  }

  /** The first appointment of the list the new one overlaps. */
  function PrimerSolape(delDia: seq<Cita>, inicio: Instante, fin: Instante): (r: Option<nat>)
    ensures r.Some? ==> r.value < |delDia| && SeSuperpone(delDia[r.value], inicio, fin)
    ensures r.Some? ==> forall j :: 0 <= j < r.value ==> !SeSuperpone(delDia[j], inicio, fin)
    ensures r.None? <==> forall j :: 0 <= j < |delDia| ==> !SeSuperpone(delDia[j], inicio, fin)
  {
    Find(delDia, (c: Cita) => SeSuperpone(c, inicio, fin))
  }

  /** The checks agendarCita makes once patient and doctor are found, in
      the order it makes them: the appointment it would insert under key
      nuevoId, or the error of the first check that fails. */
  function ValidarReserva(us: seq<Usuario>, ms: seq<Medico>, hs: seq<Horario>, cs: seq<Cita>,
                          activa: ConsultaCitaActiva, pacienteId: nat, medico: Medico,
                          inicio: Instante, ahora: Instante, nuevoId: nat): Result<Cita>
    requires MedicosConUsuario(us, ms)
  {
    var fin := inicio + DuracionCita;
    if inicio < ahora then Err(CitaEnElPasado)
    else if activa(cs, ms, pacienteId, medico.especialidadId, ahora) then
      Err(EspecialidadOcupada(medico.especialidadId))
    else
      var delDia := CitasDelPacienteEnFecha(cs, pacienteId, FechaDe(inicio));
      match PrimerSolape(delDia, inicio, fin)
      case Some(k) => Err(ConflictoDeHorario(delDia[k].id))
      case None =>
        match Disponibilidad(us, ms, hs, cs, medico.id, FechaDe(inicio))
        case Err(e) => Err(e)
        case Ok(slots) =>
          if HoraDe(inicio) in slots then Ok(Cita(nuevoId, pacienteId, medico.id, inicio, fin, Agendada))
          else Err(HorarioNoDisponible)
  }

  /** The outcome of agendarCita: the patient is looked up by email and the
      doctor by key, then the checks run. */
  function Agendamiento(us: seq<Usuario>, ms: seq<Medico>, hs: seq<Horario>, cs: seq<Cita>,
                        activa: ConsultaCitaActiva, email: string, datos: DatosAgendamiento,
                        ahora: Instante, nuevoId: nat): Result<Cita>
    requires MedicosConUsuario(us, ms)
  {
    match UsuarioPorEmail(us, email)
    case None => Err(PacienteNoEncontrado)
    case Some(ip) =>
      match MedicoPorId(ms, datos.medicoId)
      case None => Err(MedicoNoEncontrado)
      case Some(im) => ValidarReserva(us, ms, hs, cs, activa, us[ip].id, ms[im], datos.fechaHoraInicio, ahora, nuevoId)
  }

  /** True when the patient already holds an AGENDADA appointment that
      starts on the same date and overlaps the half hour from inicio. */
  ghost predicate HaySolape(cs: seq<Cita>, pacienteId: nat, inicio: Instante) {
    exists c :: c in cs && c.pacienteId == pacienteId && FechaDe(c.inicio) == FechaDe(inicio)
                && SeSuperpone(c, inicio, inicio + DuracionCita)
  }

  /** The scan over the patient's appointments of the day finds an overlap
      exactly when the patient holds an overlapping AGENDADA appointment. */
  lemma PrimerSolapeSii(cs: seq<Cita>, pacienteId: nat, inicio: Instante)
    ensures PrimerSolape(CitasDelPacienteEnFecha(cs, pacienteId, FechaDe(inicio)), inicio, inicio + DuracionCita).Some?
            <==> HaySolape(cs, pacienteId, inicio)
  {
    var delDia := CitasDelPacienteEnFecha(cs, pacienteId, FechaDe(inicio));
    var p := PrimerSolape(delDia, inicio, inicio + DuracionCita);
    if p.Some? {
      assert delDia[p.value] in cs;
    }
    if HaySolape(cs, pacienteId, inicio) {
      var c :| c in cs && c.pacienteId == pacienteId && FechaDe(c.inicio) == FechaDe(inicio)
               && SeSuperpone(c, inicio, inicio + DuracionCita);
      var i :| 0 <= i < |cs| && cs[i] == c;
      assert c in delDia;
      var j :| 0 <= j < |delDia| && delDia[j] == c;
    }
  }

  /** The checks run in a fixed order and the first one that fails decides
      the error: not in the past, no pending appointment in the specialty,
      no overlap with the patient's own appointments that day, and the slot
      is free in the doctor's agenda. When all pass, the new appointment is
      AGENDADA, lasts 30 minutes, and its start is a slot the doctor offers. */
  lemma ValidarReservaSii(us: seq<Usuario>, ms: seq<Medico>, hs: seq<Horario>, cs: seq<Cita>,
                          activa: ConsultaCitaActiva, pacienteId: nat, medico: Medico,
                          inicio: Instante, ahora: Instante, nuevoId: nat)
    requires MedicosConUsuario(us, ms)
    ensures var r := ValidarReserva(us, ms, hs, cs, activa, pacienteId, medico, inicio, ahora, nuevoId);
            var pendiente := activa(cs, ms, pacienteId, medico.especialidadId, ahora);
            var solape := HaySolape(cs, pacienteId, inicio);
            var disp := Disponibilidad(us, ms, hs, cs, medico.id, FechaDe(inicio));
            && (r == Err(CitaEnElPasado) <==> inicio < ahora)
            && (r == Err(EspecialidadOcupada(medico.especialidadId)) <==> ahora <= inicio && pendiente)
            && (r.Err? && r.error.ConflictoDeHorario? <==> ahora <= inicio && !pendiente && solape)
            && (r.Err? && r.error.ConflictoDeHorario? ==>
                  exists c :: c in cs && c.id == r.error.citaId && c.pacienteId == pacienteId
                              && FechaDe(c.inicio) == FechaDe(inicio) && SeSuperpone(c, inicio, inicio + DuracionCita))
            && (r == Err(HorarioNoDisponible) <==>
                  ahora <= inicio && !pendiente && !solape && disp.Ok? && HoraDe(inicio) !in disp.value)
            && (disp.Err? ==> r.Err? && (r.error == disp.error || inicio < ahora || pendiente || solape))
            && (r.Ok? <==> ahora <= inicio && !pendiente && !solape && disp.Ok? && HoraDe(inicio) in disp.value)
            && (r.Ok? ==> r.value == Cita(nuevoId, pacienteId, medico.id, inicio, inicio + DuracionCita, Agendada))
  {
    var r := ValidarReserva(us, ms, hs, cs, activa, pacienteId, medico, inicio, ahora, nuevoId);
    PrimerSolapeSii(cs, pacienteId, inicio);
    if r.Err? && r.error.ConflictoDeHorario? {
      var delDia := CitasDelPacienteEnFecha(cs, pacienteId, FechaDe(inicio));
      var k := PrimerSolape(delDia, inicio, inicio + DuracionCita).value;
      assert delDia[k] in cs;
    }
  }

  /** The patient is looked up first, then the doctor; with both found the
      outcome is that of the checks. */
  lemma AgendamientoSii(us: seq<Usuario>, ms: seq<Medico>, hs: seq<Horario>, cs: seq<Cita>,
                        activa: ConsultaCitaActiva, email: string, datos: DatosAgendamiento,
                        ahora: Instante, nuevoId: nat)
    requires MedicosConUsuario(us, ms)
    ensures var r := Agendamiento(us, ms, hs, cs, activa, email, datos, ahora, nuevoId);
            var sinPaciente := forall u :: u in us ==> u.email != email;
            var sinMedico := forall m :: m in ms ==> m.id != datos.medicoId;
            && (r == Err(PacienteNoEncontrado) <==> sinPaciente)
            && (r == Err(MedicoNoEncontrado) <==> !sinPaciente && sinMedico)
            && (!sinPaciente && !sinMedico ==>
                  var paciente := us[UsuarioPorEmail(us, email).value];
                  var medico := ms[MedicoPorId(ms, datos.medicoId).value];
                  && paciente.email == email && medico.id == datos.medicoId
                  && r == ValidarReserva(us, ms, hs, cs, activa, paciente.id, medico, datos.fechaHoraInicio, ahora, nuevoId))
  {
    if UsuarioPorEmail(us, email).None? {
      forall u | u in us ensures u.email != email {
        var j :| 0 <= j < |us| && us[j] == u;
      }
    } else {
      assert us[UsuarioPorEmail(us, email).value] in us;
      if MedicoPorId(ms, datos.medicoId).None? {
        forall m | m in ms ensures m.id != datos.medicoId {
          var j :| 0 <= j < |ms| && ms[j] == m;
        }
      } else {
        var medico := ms[MedicoPorId(ms, datos.medicoId).value];
        assert medico in ms;
        var paciente := us[UsuarioPorEmail(us, email).value];
        var r := ValidarReserva(us, ms, hs, cs, activa, paciente.id, medico, datos.fechaHoraInicio, ahora, nuevoId);
        DisponibilidadCasos(us, ms, hs, cs, medico.id, FechaDe(datos.fechaHoraInicio));
        ValidarReservaSii(us, ms, hs, cs, activa, paciente.id, medico, datos.fechaHoraInicio, ahora, nuevoId);
        assert r != Err(PacienteNoEncontrado) && r != Err(MedicoNoEncontrado);
      }
    }
  }

  /** The scan of agendarCita over the patient's appointments of the day:
      the first AGENDADA one the new half hour overlaps. */
  method BuscarSolape(delDia: seq<Cita>, inicio: Instante, fin: Instante) returns (r: Option<nat>)
    ensures r == PrimerSolape(delDia, inicio, fin)
  {
    for i := 0 to |delDia|
      invariant forall j :: 0 <= j < i ==> !SeSuperpone(delDia[j], inicio, fin)
    {
      var existente := delDia[i];
      if existente.estado != Agendada {
        continue;
      }
      if inicio < existente.fin && fin > existente.inicio {
        return Some(i);
      }
    }
    return None;
  }

  /** The checking part of agendarCita, which only reads the tables: the
      lookups, the past and specialty checks, the scan for an overlap among
      the patient's appointments of the day, and the availability query. */
  method ComprobarAgendamiento(db: Store, activa: ConsultaCitaActiva, email: string, datos: DatosAgendamiento,
                               ahora: Instante) returns (r: Result<Cita>)
    requires MedicosConUsuario(db.usuarios, db.medicos)
    ensures r == Agendamiento(db.usuarios, db.medicos, db.horarios, db.citas, activa, email, datos, ahora, db.nextId)
  {
    var ip := UsuarioPorEmail(db.usuarios, email);
    if ip.None? {
      return Err(PacienteNoEncontrado);
    }
    var im := MedicoPorId(db.medicos, datos.medicoId);
    if im.None? {
      return Err(MedicoNoEncontrado);
    }
    var paciente := db.usuarios[ip.value];
    var medico := db.medicos[im.value];
    var inicio := datos.fechaHoraInicio;
    var fin := inicio + DuracionCita;
    ghost var esperado := ValidarReserva(db.usuarios, db.medicos, db.horarios, db.citas, activa,
                                         paciente.id, medico, inicio, ahora, db.nextId);
    assert Agendamiento(db.usuarios, db.medicos, db.horarios, db.citas, activa, email, datos, ahora, db.nextId) == esperado;
    if inicio < ahora {
      return Err(CitaEnElPasado);
    }
    if activa(db.citas, db.medicos, paciente.id, medico.especialidadId, ahora) {
      return Err(EspecialidadOcupada(medico.especialidadId));
    }
    var delDia := CitasDelPacienteEnFecha(db.citas, paciente.id, FechaDe(inicio));
    var solape := BuscarSolape(delDia, inicio, fin);
    if solape.Some? {
      return Err(ConflictoDeHorario(delDia[solape.value].id));
    }
    var disponibilidad := CalcularDisponibilidad(db, medico.id, FechaDe(inicio));
    if disponibilidad.Err? {
      return Err(disponibilidad.error);
    }
    if HoraDe(inicio) !in disponibilidad.value {
      return Err(HorarioNoDisponible);
    }
    return Ok(Cita(db.nextId, paciente.id, medico.id, inicio, fin, Agendada));
  }

  /** agendarCita: when every check passes, the one appointment is inserted
      under the next generated key; otherwise nothing is written. */
  method AgendarCita(db: Store, activa: ConsultaCitaActiva, email: string, datos: DatosAgendamiento,
                     ahora: Instante) returns (r: Result<Cita>)
    requires MedicosConUsuario(db.usuarios, db.medicos)
    modifies db`citas, db`nextId
    ensures r == Agendamiento(db.usuarios, db.medicos, db.horarios, old(db.citas), activa,
                              email, datos, ahora, old(db.nextId))
    ensures r.Ok? ==> db.citas == old(db.citas) + [r.value] && db.nextId == old(db.nextId) + 1
    ensures r.Err? ==> db.citas == old(db.citas) && db.nextId == old(db.nextId)
  {
    r := ComprobarAgendamiento(db, activa, email, datos, ahora);
    if r.Ok? {
      db.citas := db.citas + [r.value];
      db.nextId := db.nextId + 1;
    }
  }

  /** A successful booking: the patient is the account holding the email,
      the doctor exists, and the new appointment of that patient with that
      doctor is AGENDADA, lasts exactly 30 minutes from the requested start,
      which is not in the past, does not overlap the patient's own
      appointments of that day, and is one of the slots the doctor offers. */
  lemma AgendamientoExitoso(us: seq<Usuario>, ms: seq<Medico>, hs: seq<Horario>, cs: seq<Cita>,
                            activa: ConsultaCitaActiva, email: string, datos: DatosAgendamiento,
                            ahora: Instante, nuevoId: nat)
    requires MedicosConUsuario(us, ms)
    requires Agendamiento(us, ms, hs, cs, activa, email, datos, ahora, nuevoId).Ok?
    ensures var c := Agendamiento(us, ms, hs, cs, activa, email, datos, ahora, nuevoId).value;
            var disp := Disponibilidad(us, ms, hs, cs, c.medicoId, FechaDe(c.inicio));
            && UsuarioPorEmail(us, email).Some? && c.pacienteId == us[UsuarioPorEmail(us, email).value].id
            && MedicoPorId(ms, datos.medicoId).Some?
            && c == Cita(nuevoId, c.pacienteId, datos.medicoId, datos.fechaHoraInicio,
                         datos.fechaHoraInicio + DuracionCita, Agendada)
            && ahora <= c.inicio
            && !activa(cs, ms, c.pacienteId, ms[MedicoPorId(ms, datos.medicoId).value].especialidadId, ahora)
            && !HaySolape(cs, c.pacienteId, c.inicio)
            && disp.Ok? && HoraDe(c.inicio) in disp.value
  {
    assert UsuarioPorEmail(us, email).Some? && MedicoPorId(ms, datos.medicoId).Some?;
    var paciente := us[UsuarioPorEmail(us, email).value];
    var medico := ms[MedicoPorId(ms, datos.medicoId).value];
    assert Agendamiento(us, ms, hs, cs, activa, email, datos, ahora, nuevoId)
        == ValidarReserva(us, ms, hs, cs, activa, paciente.id, medico, datos.fechaHoraInicio, ahora, nuevoId);
    ValidarReservaSii(us, ms, hs, cs, activa, paciente.id, medico, datos.fechaHoraInicio, ahora, nuevoId);
  }

  /** A successful booking keeps the database consistent: the appointment
      takes the next key and points at an existing doctor. */
  lemma AgendamientoConservaConsistencia(us: seq<Usuario>, es: seq<Especialidad>, ms: seq<Medico>,
                                         hs: seq<Horario>, cs: seq<Cita>, nextId: nat,
                                         activa: ConsultaCitaActiva, email: string,
                                         datos: DatosAgendamiento, ahora: Instante)
    requires Consistente(us, es, ms, hs, cs, nextId)
    requires Agendamiento(us, ms, hs, cs, activa, email, datos, ahora, nextId).Ok?
    ensures Consistente(us, es, ms, hs, cs + [Agendamiento(us, ms, hs, cs, activa, email, datos, ahora, nextId).value],
                        nextId + 1)
  {
    AgendamientoExitoso(us, ms, hs, cs, activa, email, datos, ahora, nextId);
    AgregarCitaConsistente(us, es, ms, hs, cs, nextId,
                           Agendamiento(us, ms, hs, cs, activa, email, datos, ahora, nextId).value);
  }

  /** Inserting an AGENDADA appointment adds its start to the doctor's
      booked times for its date and changes no other. */
  lemma OcupadasTrasAgregar(cs: seq<Cita>, c: Cita, t: int)
    requires c.estado == Agendada
    ensures var ocupadas := HorasAgendadas(CitasDelMedicoEnFecha(cs, c.medicoId, FechaDe(c.inicio)));
            var ocupadas' := HorasAgendadas(CitasDelMedicoEnFecha(cs + [c], c.medicoId, FechaDe(c.inicio)));
            t in ocupadas' <==> t in ocupadas || t == HoraDe(c.inicio)
  {
    var m, f := c.medicoId, FechaDe(c.inicio);
    OcupadasSii(cs, m, f, t);
    OcupadasSii(cs + [c], m, f, t);
    if t == HoraDe(c.inicio) {
      assert c in cs + [c];
    }
    if HoraReservada(cs, m, f, t) {
      var w :| w in cs && w.medicoId == m && FechaDe(w.inicio) == f && w.estado == Agendada && HoraDe(w.inicio) == t;
      assert w in cs + [c];
    }
  }

  /** Inserting an AGENDADA appointment takes exactly its start out of its
      doctor's offer for its date; every other offered time stays offered. */
  lemma CitaQuitaSuHora(us: seq<Usuario>, ms: seq<Medico>, hs: seq<Horario>, cs: seq<Cita>, c: Cita, t: int)
    requires MedicosConUsuario(us, ms)
    requires c.estado == Agendada
    requires Disponibilidad(us, ms, hs, cs, c.medicoId, FechaDe(c.inicio)).Ok?
    ensures var antes := Disponibilidad(us, ms, hs, cs, c.medicoId, FechaDe(c.inicio));
            var despues := Disponibilidad(us, ms, hs, cs + [c], c.medicoId, FechaDe(c.inicio));
            && despues.Ok?
            && (t in despues.value <==> t in antes.value && t != HoraDe(c.inicio))
  {
    var bloque := BloqueDelDia(us, ms, hs, c.medicoId, FechaDe(c.inicio));
    if bloque.value.Some? {
      SlotsTrasAgregar(bloque.value.value, cs, c, t);
    }
  }

  /** The same, for the walk over one block. */
  lemma SlotsTrasAgregar(b: Horario, cs: seq<Cita>, c: Cita, t: int)
    requires c.estado == Agendada
    ensures var ocupadas := HorasAgendadas(CitasDelMedicoEnFecha(cs, c.medicoId, FechaDe(c.inicio)));
            var ocupadas' := HorasAgendadas(CitasDelMedicoEnFecha(cs + [c], c.medicoId, FechaDe(c.inicio)));
            t in SlotsLibres(b.inicio, b.fin, ocupadas') <==> t in SlotsLibres(b.inicio, b.fin, ocupadas) && t != HoraDe(c.inicio)
  {
    var ocupadas := HorasAgendadas(CitasDelMedicoEnFecha(cs, c.medicoId, FechaDe(c.inicio)));
    var ocupadas' := HorasAgendadas(CitasDelMedicoEnFecha(cs + [c], c.medicoId, FechaDe(c.inicio)));
    SlotsLibresMiembro(b.inicio, b.fin, ocupadas, t);
    SlotsLibresMiembro(b.inicio, b.fin, ocupadas', t);
    OcupadasTrasAgregar(cs, c, t);
  }

  /** Booking a slot takes exactly that slot out of the doctor's offer for
      the date; every other offered time stays offered. */
  lemma ReservaOcupaElHorario(us: seq<Usuario>, ms: seq<Medico>, hs: seq<Horario>, cs: seq<Cita>,
                              activa: ConsultaCitaActiva, email: string, datos: DatosAgendamiento,
                              ahora: Instante, nuevoId: nat, t: int)
    requires MedicosConUsuario(us, ms)
    requires Agendamiento(us, ms, hs, cs, activa, email, datos, ahora, nuevoId).Ok?
    ensures var c := Agendamiento(us, ms, hs, cs, activa, email, datos, ahora, nuevoId).value;
            var antes := Disponibilidad(us, ms, hs, cs, c.medicoId, FechaDe(c.inicio));
            var despues := Disponibilidad(us, ms, hs, cs + [c], c.medicoId, FechaDe(c.inicio));
            && antes.Ok? && despues.Ok?
            && HoraDe(c.inicio) in antes.value && HoraDe(c.inicio) !in despues.value
            && (t in despues.value <==> t in antes.value && t != HoraDe(c.inicio))
  {
    var c := Agendamiento(us, ms, hs, cs, activa, email, datos, ahora, nuevoId).value;
    AgendamientoExitoso(us, ms, hs, cs, activa, email, datos, ahora, nuevoId);
    CitaQuitaSuHora(us, ms, hs, cs, c, t);
    CitaQuitaSuHora(us, ms, hs, cs, c, HoraDe(c.inicio));
  }

  /** A slot cannot be booked twice: once an appointment is inserted, the
      same doctor and start time are refused, for any patient and any
      later clock. */
  lemma ReservaDobleFalla(us: seq<Usuario>, ms: seq<Medico>, hs: seq<Horario>, cs: seq<Cita>,
                          activa: ConsultaCitaActiva, email: string, datos: DatosAgendamiento,
                          ahora: Instante, nuevoId: nat,
                          activa2: ConsultaCitaActiva, email2: string, ahora2: Instante, nuevoId2: nat)
    requires MedicosConUsuario(us, ms)
    requires Agendamiento(us, ms, hs, cs, activa, email, datos, ahora, nuevoId).Ok?
    ensures var c := Agendamiento(us, ms, hs, cs, activa, email, datos, ahora, nuevoId).value;
            Agendamiento(us, ms, hs, cs + [c], activa2, email2, datos, ahora2, nuevoId2).Err?
  {
    var c := Agendamiento(us, ms, hs, cs, activa, email, datos, ahora, nuevoId).value;
    ReservaOcupaElHorario(us, ms, hs, cs, activa, email, datos, ahora, nuevoId, HoraDe(c.inicio));
    AgendamientoExitoso(us, ms, hs, cs, activa, email, datos, ahora, nuevoId);
    var r := Agendamiento(us, ms, hs, cs + [c], activa2, email2, datos, ahora2, nuevoId2);
    if r.Ok? {
      AgendamientoExitoso(us, ms, hs, cs + [c], activa2, email2, datos, ahora2, nuevoId2);
    }
  }

  /** A patient cannot hold two overlapping appointments on one date: after
      a booking, a second request of the same patient for an overlapping half
      hour that day is refused before the doctor's agenda is consulted. */
  lemma SolapeMismoPacienteFalla(us: seq<Usuario>, ms: seq<Medico>, hs: seq<Horario>, cs: seq<Cita>,
                                 activa: ConsultaCitaActiva, email: string, datos: DatosAgendamiento,
                                 ahora: Instante, nuevoId: nat,
                                 activa2: ConsultaCitaActiva, datos2: DatosAgendamiento,
                                 ahora2: Instante, nuevoId2: nat)
    requires MedicosConUsuario(us, ms)
    requires Agendamiento(us, ms, hs, cs, activa, email, datos, ahora, nuevoId).Ok?
    requires FechaDe(datos2.fechaHoraInicio) == FechaDe(datos.fechaHoraInicio)
    requires datos.fechaHoraInicio - DuracionCita < datos2.fechaHoraInicio < datos.fechaHoraInicio + DuracionCita
    ensures var c := Agendamiento(us, ms, hs, cs, activa, email, datos, ahora, nuevoId).value;
            var r := Agendamiento(us, ms, hs, cs + [c], activa2, email, datos2, ahora2, nuevoId2);
            && r.Err?
            && (r.error == MedicoNoEncontrado || r.error == CitaEnElPasado
                || r.error.EspecialidadOcupada? || r.error.ConflictoDeHorario?)
  {
    var c := Agendamiento(us, ms, hs, cs, activa, email, datos, ahora, nuevoId).value;
    AgendamientoExitoso(us, ms, hs, cs, activa, email, datos, ahora, nuevoId);
    assert HaySolape(cs + [c], c.pacienteId, datos2.fechaHoraInicio) by {
      assert c in cs + [c];
    }
    var im := MedicoPorId(ms, datos2.medicoId);
    if im.Some? {
      ValidarReservaSii(us, ms, hs, cs + [c], activa2, c.pacienteId, ms[im.value], datos2.fechaHoraInicio, ahora2, nuevoId2);
    }
  }

  /** With the reference reading of the pending-appointment query, a patient
      holds at most one pending appointment per specialty: after a booking,
      a request of the same patient with any doctor of that specialty, made
      before the booked appointment starts, is refused. */
  lemma UnaCitaPendientePorEspecialidad(us: seq<Usuario>, ms: seq<Medico>, hs: seq<Horario>, cs: seq<Cita>,
                                        activa: ConsultaCitaActiva, email: string, datos: DatosAgendamiento,
                                        ahora: Instante, nuevoId: nat,
                                        datos2: DatosAgendamiento, ahora2: Instante, nuevoId2: nat)
    requires MedicosConUsuario(us, ms)
    requires Agendamiento(us, ms, hs, cs, activa, email, datos, ahora, nuevoId).Ok?
    requires MedicoPorId(ms, datos2.medicoId).Some?
    requires ms[MedicoPorId(ms, datos2.medicoId).value].especialidadId
             == ms[MedicoPorId(ms, datos.medicoId).value].especialidadId
    requires ahora2 < datos.fechaHoraInicio
    ensures var c := Agendamiento(us, ms, hs, cs, activa, email, datos, ahora, nuevoId).value;
            var r := Agendamiento(us, ms, hs, cs + [c], CitaActivaEnEspecialidad, email, datos2, ahora2, nuevoId2);
            var e := ms[MedicoPorId(ms, datos.medicoId).value].especialidadId;
            r == Err(CitaEnElPasado) || r == Err(EspecialidadOcupada(e))
  {
    var c := Agendamiento(us, ms, hs, cs, activa, email, datos, ahora, nuevoId).value;
    AgendamientoExitoso(us, ms, hs, cs, activa, email, datos, ahora, nuevoId);
    AgendamientoSii(us, ms, hs, cs + [c], CitaActivaEnEspecialidad, email, datos2, ahora2, nuevoId2);
    var e := ms[MedicoPorId(ms, datos.medicoId).value].especialidadId;
    var medico := ms[MedicoPorId(ms, datos2.medicoId).value];
    assert medico in ms;
    assert c in cs + [c];
    assert CitaActivaEnEspecialidad(cs + [c], ms, c.pacienteId, e, ahora2);
    ValidarReservaSii(us, ms, hs, cs + [c], CitaActivaEnEspecialidad, c.pacienteId, medico,
                      datos2.fechaHoraInicio, ahora2, nuevoId2);
  }

  // ---------------------------------------------------------------------
  // Deactivating a patient
  // ---------------------------------------------------------------------

  /** findById(id).filter(rol == ROLE_PACIENTE): the row of the patient with that key. */
  function PacientePorId(us: seq<Usuario>, id: nat): (r: Option<nat>)
    ensures r.Some? ==> r.value < |us| && us[r.value].id == id && us[r.value].rol == RolPaciente
    ensures r.None? <==> UsuarioPorId(us, id).None? || us[UsuarioPorId(us, id).value].rol != RolPaciente
  {
    match UsuarioPorId(us, id)
    case None => None
    case Some(k) => if us[k].rol == RolPaciente then Some(k) else None
  }

  /** The appointments eliminarPaciente cancels: the patient's AGENDADA
      appointments starting between desde and hasta, both included. */
  predicate SeCancela(c: Cita, pacienteId: nat, desde: Instante, hasta: Instante) {
    c.pacienteId == pacienteId && desde <= c.inicio <= hasta && c.estado == Agendada
  }

  function CancelarSiCorresponde(c: Cita, pacienteId: nat, desde: Instante, hasta: Instante): Cita {
    if SeCancela(c, pacienteId, desde, hasta) then c.(estado := CanceladaAdmin) else c
  }

  /** The appointment table after the cancellation cascade. */
  function CancelarCitasFuturas(cs: seq<Cita>, pacienteId: nat, desde: Instante, hasta: Instante): seq<Cita>
  {
    if cs == [] then []
    else [CancelarSiCorresponde(cs[0], pacienteId, desde, hasta)]
         + CancelarCitasFuturas(cs[1..], pacienteId, desde, hasta)
  }

  /** The cascade rewrites row by row in place: the table keeps its length,
      and each row either is one of the cancelled appointments, now
      CANCELADA_ADMIN with everything else kept, or is left as it was. */
  lemma {:induction false} CancelarCitasFuturasFilas(cs: seq<Cita>, pacienteId: nat, desde: Instante, hasta: Instante)
    ensures var r := CancelarCitasFuturas(cs, pacienteId, desde, hasta);
            && |r| == |cs|
            && forall i :: 0 <= i < |cs| ==>
                 if SeCancela(cs[i], pacienteId, desde, hasta)
                 then r[i] == cs[i].(estado := CanceladaAdmin)
                 else r[i] == cs[i]
  {
    if cs != [] {
      CancelarCitasFuturasFilas(cs[1..], pacienteId, desde, hasta);
    }
  }

  /** After the cascade no appointment that it targets remains AGENDADA. */
  lemma NadaQueCancelarTrasCancelar(cs: seq<Cita>, pacienteId: nat, desde: Instante, hasta: Instante)
    ensures forall c :: c in CancelarCitasFuturas(cs, pacienteId, desde, hasta) ==> !SeCancela(c, pacienteId, desde, hasta)
  {
    CancelarCitasFuturasFilas(cs, pacienteId, desde, hasta);
  }

  /** Cancelling twice is cancelling once. */
  lemma CancelarIdempotente(cs: seq<Cita>, pacienteId: nat, desde: Instante, hasta: Instante)
    ensures var r := CancelarCitasFuturas(cs, pacienteId, desde, hasta);
            CancelarCitasFuturas(r, pacienteId, desde, hasta) == r
  {
    var r := CancelarCitasFuturas(cs, pacienteId, desde, hasta);
    CancelarCitasFuturasFilas(cs, pacienteId, desde, hasta);
    CancelarCitasFuturasFilas(r, pacienteId, desde, hasta);
  }

  /** Deactivating a patient keeps the database consistent: the account
      keeps its key and email, and the cascade only rewrites states. */
  lemma EliminacionPacienteConservaConsistencia(us: seq<Usuario>, es: seq<Especialidad>, ms: seq<Medico>,
                                                hs: seq<Horario>, cs: seq<Cita>, nextId: nat,
                                                id: nat, desde: Instante, hasta: Instante)
    requires Consistente(us, es, ms, hs, cs, nextId)
    requires PacientePorId(us, id).Some?
    ensures var k := PacientePorId(us, id).value;
            Consistente(us[k := us[k].(enabled := false)], es, ms, hs,
                        CancelarCitasFuturas(cs, id, desde, hasta), nextId)
  {
    var k := PacientePorId(us, id).value;
    ActualizarUsuarioConsistente(us, k, us[k].(enabled := false), es, ms, hs, cs, nextId);
    var r := CancelarCitasFuturas(cs, id, desde, hasta);
    CancelarCitasFuturasFilas(cs, id, desde, hasta);
    forall c | c in r ensures c.id < nextId && c.medicoId < nextId {
      var i :| 0 <= i < |r| && r[i] == c;
      assert cs[i] in cs;
    }
  }

  /** eliminarPaciente: the patient's account is disabled and each of their
      AGENDADA appointments starting between ahora and hasta (two years
      later) becomes CANCELADA_ADMIN. */
  method EliminarPaciente(db: Store, id: nat, ahora: Instante, hasta: Instante) returns (r: Result<()>)
    modifies db`usuarios, db`citas
    ensures r.Err? <==> PacientePorId(old(db.usuarios), id).None?
    ensures r.Err? ==> r.error == PacienteNoEncontrado
                       && db.usuarios == old(db.usuarios) && db.citas == old(db.citas)
    ensures r.Ok? ==> var k := PacientePorId(old(db.usuarios), id).value;
                      && db.usuarios == old(db.usuarios)[k := old(db.usuarios)[k].(enabled := false)]
                      && db.citas == CancelarCitasFuturas(old(db.citas), id, ahora, hasta)
  {
    var k := PacientePorId(db.usuarios, id);
    if k.None? {
      return Err(PacienteNoEncontrado);
    }
    var paciente := db.usuarios[k.value];
    db.usuarios := db.usuarios[k.value := paciente.(enabled := false)];
    ghost var antes := db.citas;
    CancelarCitasFuturasFilas(antes, id, ahora, hasta);
    var i := 0;
    while i < |db.citas|
      invariant i <= |db.citas| == |antes|
      invariant db.usuarios == old(db.usuarios)[k.value := paciente.(enabled := false)]
      invariant forall j :: 0 <= j < i ==> db.citas[j] == CancelarSiCorresponde(antes[j], id, ahora, hasta)
      invariant forall j :: i <= j < |db.citas| ==> db.citas[j] == antes[j]
    {
      var cita := db.citas[i];
      if cita.pacienteId == id && ahora <= cita.inicio <= hasta && cita.estado == Agendada {
        db.citas := db.citas[i := cita.(estado := CanceladaAdmin)];
      }
      i := i + 1;
    }
    return Ok(());
  }

  // ---------------------------------------------------------------------
  // Administrator's profile update
  // ---------------------------------------------------------------------

  /** The request body of actualizarPaciente: the seven profile fields and the email. */
  datatype DatosPaciente = DatosPaciente(perfil: Perfil, email: string)

  /** The outcome of actualizarPaciente on the user table: the rewritten
      account, or why it is refused. */
  function ActualizacionPaciente(us: seq<Usuario>, id: nat, datos: DatosPaciente): (r: Result<Usuario>)
  {
    match PacientePorId(us, id)
    case None => Err(PacienteNoEncontrado)
    case Some(k) =>
      if us[k].email != datos.email && UsuarioPorEmail(us, datos.email).Some? then Err(EmailEnUso)
      else Ok(us[k].(perfil := datos.perfil, email := datos.email))
  }

  /** actualizarPaciente fails for a key that is not a patient's, and for an
      email change to an email another account holds. Otherwise it rewrites
      exactly the profile and the email, keeping key, password, role and
      enabled flag, and emails stay unique. */
  lemma ActualizacionPacienteSii(us: seq<Usuario>, id: nat, datos: DatosPaciente)
    requires EmailsUnicos(us)
    ensures var r := ActualizacionPaciente(us, id, datos);
            && (r == Err(PacienteNoEncontrado) <==> PacientePorId(us, id).None?)
            && (r == Err(EmailEnUso) <==>
                  PacientePorId(us, id).Some?
                  && exists j :: 0 <= j < |us| && j != PacientePorId(us, id).value && us[j].email == datos.email)
            && (r.Ok? ==>
                  var k := PacientePorId(us, id).value;
                  && r.value.id == id && r.value.perfil == datos.perfil && r.value.email == datos.email
                  && r.value.password == us[k].password && r.value.rol == RolPaciente
                  && r.value.enabled == us[k].enabled
                  && EmailsUnicos(us[k := r.value]))
  {
    var r := ActualizacionPaciente(us, id, datos);
    if PacientePorId(us, id).Some? {
      var k := PacientePorId(us, id).value;
      var e := UsuarioPorEmail(us, datos.email);
      if e.Some? && us[k].email == datos.email {
        assert e.value == k;
      }
      if r.Ok? {
        var us' := us[k := r.value];
        forall i, j | 0 <= i < j < |us'| ensures us'[i].email != us'[j].email {
        }
      }
    }
  }

  /** A successful profile update keeps the database consistent. */
  lemma ActualizacionPacienteConservaConsistencia(us: seq<Usuario>, es: seq<Especialidad>, ms: seq<Medico>,
                                                  hs: seq<Horario>, cs: seq<Cita>, nextId: nat,
                                                  id: nat, datos: DatosPaciente)
    requires Consistente(us, es, ms, hs, cs, nextId)
    requires ActualizacionPaciente(us, id, datos).Ok?
    ensures Consistente(us[PacientePorId(us, id).value := ActualizacionPaciente(us, id, datos).value],
                        es, ms, hs, cs, nextId)
  {
    var k := PacientePorId(us, id).value;
    ActualizarUsuarioConsistente(us, k, ActualizacionPaciente(us, id, datos).value, es, ms, hs, cs, nextId);
  }

  /** actualizarPaciente, in place on the user table. */
  method ActualizarPaciente(db: Store, id: nat, datos: DatosPaciente) returns (r: Result<Usuario>)
    modifies db`usuarios
    ensures r == ActualizacionPaciente(old(db.usuarios), id, datos)
    ensures r.Ok? ==> db.usuarios == old(db.usuarios)[PacientePorId(old(db.usuarios), id).value := r.value]
    ensures r.Err? ==> db.usuarios == old(db.usuarios)
  {
    var k := PacientePorId(db.usuarios, id);
    if k.None? {
      return Err(PacienteNoEncontrado);
    }
    var usuario := db.usuarios[k.value];
    if usuario.email != datos.email && UsuarioPorEmail(db.usuarios, datos.email).Some? {
      return Err(EmailEnUso);
    }
    var actualizado := usuario.(perfil := datos.perfil, email := datos.email);
    db.usuarios := db.usuarios[k.value := actualizado];
    return Ok(actualizado);
  }
}
