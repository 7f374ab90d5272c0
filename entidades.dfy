/** The rows of the system's tables and the failures its services report. */
module Entidades {
  import opened Tiempo

  /** The seven personal fields shared by registration and the profile updates. */
  datatype Perfil = Perfil(
    nombre: string,
    apellido: string,
    documento: string,
    telefono: string,
    direccion: string,
    fechaNacimiento: Fecha,
    genero: string)

  /** An account: patient, doctor or administrator, told apart by the role name. */
  datatype Usuario = Usuario(
    id: nat,
    perfil: Perfil,
    email: string,
    password: string,  // the encoder's hash, never the clear text
    rol: string,
    enabled: bool)

  datatype Especialidad = Especialidad(id: nat, nombre: string)

  /** A doctor profile: the account it belongs to and its specialty. */
  datatype Medico = Medico(id: nat, usuarioId: nat, especialidadId: nat)

  /** One weekly working block of a doctor. */
  datatype Horario = Horario(id: nat, medicoId: nat, dia: DiaSemana, inicio: HoraDelDia, fin: HoraDelDia)

  /** AGENDADA and CANCELADA_ADMIN are the states the services produce; the
      enumeration's other values are kept as their names. */
  datatype EstadoCita = Agendada | CanceladaAdmin | OtroEstado(nombre: string)

  datatype Cita = Cita(id: nat, pacienteId: nat, medicoId: nat, inicio: Instante, fin: Instante, estado: EstadoCita)

  const RolPaciente: string := "ROLE_PACIENTE"
  const RolMedico: string := "ROLE_MEDICO"

  /** One constructor per exception the services throw. */
  datatype Error =
    | MedicoNoEncontrado
    | PacienteNoEncontrado
    | UsuarioNoEncontrado
    | HorarioNoEncontrado
    | EspecialidadNoEncontrada
    | RolNoEncontrado(nombre: string)
    | EmailEnUso
    | PasswordIncorrecta
    | HoraFinNoPosterior                  // a block whose end is not after its start
    | HoraFinNoPosteriorEn(dia: DiaSemana) // the same, for an entry of a batch
    | AccesoDenegado                      // the block belongs to another doctor
    | ResultadoNoUnico                    // an Optional query that matched several rows
    | IntegridadReferencial               // a delete that a foreign key refuses
    | CitaEnElPasado
    | EspecialidadOcupada(especialidadId: nat)
    | ConflictoDeHorario(citaId: nat)
    | HorarioNoDisponible

  datatype Result<T> = Ok(value: T) | Err(error: Error)

  /** The password encoder's two operations, whose hashing is not part of
      this model: encode a clear password, and check a clear password
      against a stored hash. */
  type Codificador = string -> string
  type Comparador = (string, string) -> bool
}
