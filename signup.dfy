/** The sign-up form of auth/SignupScreen.kt: the seven field validators
    and the register button's guard. Each `onValueChange` handler stores the
    new text and recomputes that field's flag; the button hands the e-mail,
    the password and the new `Usuario` to `onSignup` (recorded here in
    `registros`) when its guard holds. */
module Signup {
  import opened Wrappers
  import opened Models
  import opened Text
  import Collections

  const Dominio := ".edu.pe"
  const DigitosTelefono := 9
  const MinimoPassword := 6

  /** `input.filter { it.isDigit() }`. */
  function SoloDigitos(s: string): (r: string)
    ensures |r| <= |s|
  {
    if s == [] then []
    else (if IsDigit(s[0]) then [s[0]] else []) + SoloDigitos(s[1..])
  }

  /** The digits of the input, in their order, and nothing else. */
  lemma {:induction false} SoloDigitosMeans(s: string)
    ensures forall c :: c in SoloDigitos(s) <==> c in s && IsDigit(c)
    ensures Collections.IsSubsequence(SoloDigitos(s), s)
    ensures (forall k | 0 <= k < |s| :: IsDigit(s[k])) ==> SoloDigitos(s) == s
  {
    if s != [] {
      SoloDigitosMeans(s[1..]);
      var t := SoloDigitos(s[1..]);
      assert [s[0]] + s[1..] == s;
      assert forall c :: c in s <==> c == s[0] || c in s[1..];
      if IsDigit(s[0]) {
        var r := [s[0]] + t;
        assert r[0] == s[0] && r[1..] == t;
        assert Collections.IsSubsequence(r, s);
      } else {
        Collections.SubsequenceCons(t, s[1..], s[0]);
        assert SoloDigitos(s) == t;
      }
    }
  }

  /** The phone field's `filter { it.isDigit() }.take(9)`. */
  function Telefono(input: string): string {
    var d := SoloDigitos(input);
    if |d| <= DigitosTelefono then d else d[..DigitosTelefono]
  }

  predicate TelefonoValido(t: string) {
    |t| == DigitosTelefono
  }

  /** The stored number is the first digits of the input, at most nine of
      them; it is valid exactly when the input held at least nine digits;
      filtering it again changes nothing. */
  lemma TelefonoMeans(input: string)
    ensures var t := Telefono(input);
            |t| <= DigitosTelefono
            && (forall k | 0 <= k < |t| :: IsDigit(t[k]))
            && t <= SoloDigitos(input)
            && (TelefonoValido(t) <==> |SoloDigitos(input)| >= DigitosTelefono)
            && Telefono(t) == t
  {
    var d := SoloDigitos(input);
    SoloDigitosMeans(input);
    var t := Telefono(input);
    assert forall k | 0 <= k < |t| :: t[k] in d;
    SoloDigitosMeans(t);
  }

  /** The e-mail field's check. */
  predicate EmailValido(e: string) {
    e != "" && Contains(e, "@") && EndsWith(e, Dominio)
  }

  /** The non-empty test adds nothing: an address is accepted exactly when
      it ends with ".edu.pe" and has an "@" before that suffix, so it has
      at least eight characters. */
  lemma EmailMeans(e: string)
    ensures EmailValido(e) <==> Contains(e, "@") && EndsWith(e, Dominio)
    ensures EmailValido(e) <==> |e| >= |Dominio| && EndsWith(e, Dominio) && Contains(e[..|e| - |Dominio|], "@")
    ensures EmailValido(e) ==> |e| >= 8
  {
    if Contains(e, "@") && EndsWith(e, Dominio) {
      var i :| 0 <= i <= |e| - 1 && OccursAt(e, "@", i);
      assert e[i] == e[i..i + 1][0] == '@';
      var n := |e| - |Dominio|;
      assert e[..n][i..i + 1] == e[i..i + 1];
      assert OccursAt(e[..n], "@", i);
    }
    if |e| >= |Dominio| && Contains(e[..|e| - |Dominio|], "@") {
      var n := |e| - |Dominio|;
      var i :| 0 <= i <= n - 1 && OccursAt(e[..n], "@", i);
      assert e[..n][i..i + 1] == e[i..i + 1];
      assert OccursAt(e, "@", i);
    }
  }

  predicate PasswordValida(p: string) {
    |p| >= MinimoPassword
  }

  /** The `Usuario` the register button builds; every other field keeps
      the data class default. */
  function NuevoUsuario(nombres: string, apellidos: string, cu: string, password: string, telefono: string): Usuario {
    Usuario(0, "", nombres, apellidos, cu, password, telefono, false)
  }

  /** Every field passes its own check against the current values. */
  predicate Completo(nombres: string, apellidos: string, cu: string, telefono: string,
                     email: string, password: string, confirmacion: string) {
    nombres != "" && apellidos != "" && cu != "" && TelefonoValido(telefono)
    && EmailValido(email) && PasswordValida(password) && confirmacion == password
  }

  class SignupForm {
    var email: string
    var password: string
    var confirmPassword: string
    var nombres: string
    var apellidos: string
    var cu: string
    var nroTelefonico: string
    var isNombreValid: bool
    var isApellidosValid: bool
    var isCodigoValid: bool
    var isNumeroValid: bool
    var isEmailValid: bool
    var isPasswordValid: bool
    var isConfirmPasswordValid: bool
    /** The password as it was when the confirmation was last typed. */
    ghost var passwordAlConfirmar: string
    /** The `onSignup(email, password, usuario)` calls, in order. */
    var registros: seq<(string, string, Usuario)>

    /** Each flag is its field's check, except that a field never typed in
        is still empty and its flag still true; the confirmation flag
        compares with the password of the moment it was typed. */
    ghost predicate Valid()
      reads this
    {
      (isNombreValid == (nombres != "") || (isNombreValid && nombres == ""))
      && (isApellidosValid == (apellidos != "") || (isApellidosValid && apellidos == ""))
      && (isCodigoValid == (cu != "") || (isCodigoValid && cu == ""))
      && (isNumeroValid == TelefonoValido(nroTelefonico) || (isNumeroValid && nroTelefonico == ""))
      && (isEmailValid == EmailValido(email) || (isEmailValid && email == ""))
      && (isPasswordValid == PasswordValida(password) || (isPasswordValid && password == ""))
      && isConfirmPasswordValid == (confirmPassword == passwordAlConfirmar)
    }

    ghost predicate Fields(e: string, p: string, c: string, n: string, a: string, u: string, t: string)
      reads this
    {
      email == e && password == p && confirmPassword == c && nombres == n
      && apellidos == a && cu == u && nroTelefonico == t
    }

    predicate Flags()
      reads this
    {
      isNombreValid && isApellidosValid && isNumeroValid && isCodigoValid
      && isEmailValid && isPasswordValid && isConfirmPasswordValid
    }

    constructor()
      ensures Valid() && Fields("", "", "", "", "", "", "") && Flags() && registros == []
    {
      email, password, confirmPassword := "", "", "";
      nombres, apellidos, cu, nroTelefonico := "", "", "", "";
      isNombreValid, isApellidosValid, isCodigoValid, isNumeroValid := true, true, true, true;
      isEmailValid, isPasswordValid, isConfirmPasswordValid := true, true, true;
      passwordAlConfirmar := "";
      registros := [];
    }

    method EditarNombres(texto: string)
      requires Valid()
      modifies this`nombres, this`isNombreValid
      ensures Valid()
      ensures Fields(old(email), old(password), old(confirmPassword), texto, old(apellidos), old(cu), old(nroTelefonico))
      ensures isNombreValid == (texto != "")
    {
      nombres := texto;
      isNombreValid := nombres != "";
    }

    method EditarApellidos(texto: string)
      requires Valid()
      modifies this`apellidos, this`isApellidosValid
      ensures Valid()
      ensures Fields(old(email), old(password), old(confirmPassword), old(nombres), texto, old(cu), old(nroTelefonico))
      ensures isApellidosValid == (texto != "")
    {
      apellidos := texto;
      isApellidosValid := apellidos != "";
    }

    method EditarCodigo(texto: string)
      requires Valid()
      modifies this`cu, this`isCodigoValid
      ensures Valid()
      ensures Fields(old(email), old(password), old(confirmPassword), old(nombres), old(apellidos), texto, old(nroTelefonico))
      ensures isCodigoValid == (texto != "")
    {
      cu := texto;
      isCodigoValid := cu != "";
    }

    /** The phone field stores the filtered input, valid with nine digits. */
    method EditarTelefono(input: string)
      requires Valid()
      modifies this`nroTelefonico, this`isNumeroValid
      ensures Valid()
      ensures Fields(old(email), old(password), old(confirmPassword), old(nombres), old(apellidos), old(cu), Telefono(input))
      ensures isNumeroValid == TelefonoValido(Telefono(input))
    {
      var filtrado := Telefono(input);
      nroTelefonico := filtrado;
      isNumeroValid := |filtrado| == DigitosTelefono;
    }

    method EditarEmail(texto: string)
      requires Valid()
      modifies this`email, this`isEmailValid
      ensures Valid()
      ensures Fields(texto, old(password), old(confirmPassword), old(nombres), old(apellidos), old(cu), old(nroTelefonico))
      ensures isEmailValid == EmailValido(texto)
    {
      email := texto;
      isEmailValid := EmailValido(email);
    }

    /** Only the password's own flag is recomputed: the confirmation flag
        keeps its earlier verdict. */
    method EditarPassword(texto: string)
      requires Valid()
      modifies this`password, this`isPasswordValid
      ensures Valid()
      ensures Fields(old(email), texto, old(confirmPassword), old(nombres), old(apellidos), old(cu), old(nroTelefonico))
      ensures isPasswordValid == PasswordValida(texto)
    {
      password := texto;
      isPasswordValid := |password| >= MinimoPassword;
    }

    method EditarConfirmacion(texto: string)
      requires Valid()
      modifies this`confirmPassword, this`isConfirmPasswordValid, this`passwordAlConfirmar
      ensures Valid()
      ensures Fields(old(email), old(password), texto, old(nombres), old(apellidos), old(cu), old(nroTelefonico))
      ensures isConfirmPasswordValid == (texto == old(password))
      ensures passwordAlConfirmar == old(password)
    {
      confirmPassword := texto;
      isConfirmPasswordValid := confirmPassword == password;
      passwordAlConfirmar := password;
    }

    /** The register button as written: it trusts the seven flags, so it
        lets through every field that was never typed in and a
        confirmation that only matched an earlier password. */
    method RegistrarAsWritten() returns (enviado: Option<(string, string, Usuario)>)
      requires Valid()
      modifies this
      ensures Valid()
      ensures enviado.Some? <==> Flags()
      ensures enviado.Some? <==>
                (nombres != "" || isNombreValid) && (apellidos != "" || isApellidosValid)
                && (cu != "" || isCodigoValid)
                && (TelefonoValido(nroTelefonico) || (nroTelefonico == "" && isNumeroValid))
                && (EmailValido(email) || (email == "" && isEmailValid))
                && (PasswordValida(password) || (password == "" && isPasswordValid))
                && confirmPassword == passwordAlConfirmar
      ensures enviado.Some? ==>
                enviado.value == (email, password, NuevoUsuario(nombres, apellidos, cu, password, nroTelefonico))
      ensures registros == old(registros) + (if enviado.Some? then [enviado.value] else [])
      ensures Fields(old(email), old(password), old(confirmPassword), old(nombres), old(apellidos), old(cu), old(nroTelefonico))
      ensures Flags() == old(Flags()) && passwordAlConfirmar == old(passwordAlConfirmar)
    {
      if isNombreValid && isApellidosValid && isNumeroValid && isCodigoValid
         && isEmailValid && isPasswordValid && isConfirmPasswordValid
      {
        var usuario := NuevoUsuario(nombres, apellidos, cu, password, nroTelefonico);
        enviado := Some((email, password, usuario));
        registros := registros + [enviado.value];
      } else {
        enviado := None;
      }
    }

    /** The register button with its guard recomputed from the current
        field values: it calls `onSignup` exactly when every field passes
        its check now. */
    method Registrar() returns (enviado: Option<(string, string, Usuario)>)
      requires Valid()
      modifies this
      ensures Valid()
      ensures enviado.Some? <==> Completo(nombres, apellidos, cu, nroTelefonico, email, password, confirmPassword)
      ensures enviado.Some? ==>
                enviado.value == (email, password, NuevoUsuario(nombres, apellidos, cu, password, nroTelefonico))
      ensures registros == old(registros) + (if enviado.Some? then [enviado.value] else [])
      ensures Fields(old(email), old(password), old(confirmPassword), old(nombres), old(apellidos), old(cu), old(nroTelefonico))
      ensures Flags() == old(Flags()) && passwordAlConfirmar == old(passwordAlConfirmar)
    {
      if Completo(nombres, apellidos, cu, nroTelefonico, email, password, confirmPassword) {
        var usuario := NuevoUsuario(nombres, apellidos, cu, password, nroTelefonico);
        enviado := Some((email, password, usuario));
        registros := registros + [enviado.value];
      } else {
        enviado := None;
      }
    }
  }

  /** What a complete form guarantees about the account it registers. */
  lemma CompletoMeans(nombres: string, apellidos: string, cu: string, telefono: string,
                      email: string, password: string, confirmacion: string)
    requires Completo(nombres, apellidos, cu, telefono, email, password, confirmacion)
    ensures |email| >= 8 && EndsWith(email, Dominio) && Contains(email[..|email| - |Dominio|], "@")
    ensures |password| >= MinimoPassword && confirmacion == password
    ensures |telefono| == DigitosTelefono
    ensures NuevoUsuario(nombres, apellidos, cu, password, telefono).uNombres != ""
    ensures NuevoUsuario(nombres, apellidos, cu, password, telefono).uContrasena == confirmacion
  {
    EmailMeans(email);
  }

  /** As written, pressing the button on a form nobody typed in calls
      `onSignup` with an empty e-mail, password and names. */
  method UntouchedFormSubmits() returns (enviado: Option<(string, string, Usuario)>)
    ensures enviado == Some(("", "", NuevoUsuario("", "", "", "", "")))
  {
    var form := new SignupForm();
    enviado := form.RegistrarAsWritten();
  }

  lemma SampleValid()
    ensures TelefonoValido(Telefono("987654321")) && EmailValido("ana@uni.edu.pe")
  {
    SamplePhone();
    SampleEmail();
  }

  lemma SamplePhone()
    ensures TelefonoValido(Telefono("987654321"))
  {
    var t := "987654321";
    assert forall k | 0 <= k < |t| :: IsDigit(t[k]);
    SoloDigitosMeans(t);
  }

  lemma SampleEmail()
    ensures EmailValido("ana@uni.edu.pe")
  {
    var e := "ana@uni.edu.pe";
    assert e[3..4] == "@";
    assert OccursAt(e, "@", 3);
    assert e[|e| - 7..] == Dominio;
  }

  /** As written, a confirmation typed to match and a password changed
      afterwards still register, with a confirmation that differs from the
      password sent. */
  method StaleConfirmationSubmits() returns (enviado: Option<(string, string, Usuario)>, confirmacion: string)
    ensures enviado.Some? && confirmacion != enviado.value.1
  {
    var form := new SignupForm();
    form.EditarNombres("Ana");
    form.EditarApellidos("Ruiz");
    form.EditarCodigo("20201234");
    SampleValid();
    form.EditarTelefono("987654321");
    form.EditarEmail("ana@uni.edu.pe");
    form.EditarPassword("secreto");
    form.EditarConfirmacion("secreto");
    form.EditarPassword("distinto");
    enviado := form.RegistrarAsWritten();
    confirmacion := form.confirmPassword;
  }

  /** With the recomputed guard neither form registers. */
  method CorrectedGuardRefuses() returns (vacio: Option<(string, string, Usuario)>, desfasado: Option<(string, string, Usuario)>)
    ensures vacio == None && desfasado == None
  {
    var form := new SignupForm();
    vacio := form.Registrar();
    var otro := new SignupForm();
    otro.EditarPassword("secreto");
    otro.EditarConfirmacion("secreto");
    otro.EditarPassword("distinto");
    desfasado := otro.Registrar();
  }
}
