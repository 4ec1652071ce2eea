/** The string resources (Android `R.string` ids) that the modelled code refers to.
    A resource lookup (`Resources.getString`) is a function parameter of type
    `StringRes -> string` wherever the source calls it. */
module Resources {

  datatype StringRes =
    | GenericError
    | UpdateDownloading
    | UpdateDownloaded
    | UpdateRestart
    | UpdateCanceled
    | UpdateFailed
    | InvalidSpectacleSphere      // tools_contact_lens_error_msg_invalid_spec_sph
    | InvalidAoaPower             // tools_accommodation_tab_aoa_error_msg_invalid_power
    | NonPresbyopeButPlus         // tools_accommodation_tab_aoa_error_msg_nonpresbyope_but_plus
    | PresbyopeButMinus           // tools_accommodation_tab_aoa_error_msg_presbyope_but_minus
}
