/** mint/version.js: the one engine version string. */
module Version {
  import opened Texts

  const ENGINE_VERSION: Text := Ascii("engine-v2.17.2-intel")
}
